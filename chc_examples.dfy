/**
 The converter's own test vectors, stated about the model, and two inputs
 where the code's behaviour is worth pinning down: an all-capitals acronym
 followed by a capitalised word, and a snake_case word with a one-letter token.
 */
module ChcExamples {
  import opened Strings
  import opened Chc
  import opened ChcProperties

  const FooBar: seq<string> := ["foo", "bar"]

  // The tokens of each test word, each obtained from a round-trip lemma. One lemma per word
  // keeps each proof within the solver's budget; the test-vector lemmas below combine them.

  lemma TokensOfFoo()
    ensures Tokens("foo") == ["foo"]
  {
  }

  lemma TokensOfUpperFoo()
    ensures Tokens("FOO") == ["foo"]
  {
    assert ToUpper(Join(["foo"], '_')) == "FOO";
    UpperRoundTrip(["foo"]);
  }

  lemma TokensOfSnake()
    ensures Tokens("foo_bar") == FooBar
  {
    assert Join(FooBar, '_') == "foo_bar";
    SnakeRoundTrip(FooBar);
  }

  lemma TokensOfUpper()
    ensures Tokens("FOO_BAR") == FooBar
  {
    assert ToUpper(Join(FooBar, '_')) == "FOO_BAR";
    UpperRoundTrip(FooBar);
  }

  lemma TokensOfCamel()
    ensures Tokens("fooBar") == FooBar
  {
    assert CamelJoin(FooBar) == "fooBar";
    CamelRoundTrip(FooBar);
  }

  lemma TokensOfPascal()
    ensures Tokens("FooBar") == FooBar
  {
    assert PascalJoin(FooBar) == "FooBar";
    PascalRoundTrip(FooBar);
  }

  lemma TokensOfLisp()
    ensures Tokens("foo-bar") == FooBar
  {
    assert Join(FooBar, '-') == "foo-bar";
    LispRoundTrip(FooBar);
  }

  // TestDetermineCase: one lemma per word, for the same budget reason, combined below.

  lemma CaseOfFoo()
    ensures DetermineCase("foo") == Snake
  {
  }

  lemma CaseOfUpperFoo()
    ensures DetermineCase("FOO") == Upper
  {
  }

  lemma CaseOfSnake()
    ensures DetermineCase("foo_bar") == Snake
  {
  }

  lemma CaseOfUpper()
    ensures DetermineCase("FOO_BAR") == Upper
  {
  }

  lemma CaseOfCamel()
    ensures DetermineCase("fooBar") == Camel
  {
  }

  lemma CaseOfPascal()
    ensures DetermineCase("FooBar") == Pascal
  {
  }

  lemma CaseOfLisp()
    ensures DetermineCase("foo-bar") == Lisp
  {
  }

  lemma DetermineCaseExamples()
    ensures DetermineCase("foo") == Snake
    ensures DetermineCase("FOO") == Upper
    ensures DetermineCase("foo_bar") == Snake
    ensures DetermineCase("FOO_BAR") == Upper
    ensures DetermineCase("fooBar") == Camel
    ensures DetermineCase("FooBar") == Pascal
    ensures DetermineCase("foo-bar") == Lisp
  {
    CaseOfFoo();
    CaseOfUpperFoo();
    CaseOfSnake();
    CaseOfUpper();
    CaseOfCamel();
    CaseOfPascal();
    CaseOfLisp();
  }

  // TestTokenize

  lemma TokensExamples()
    ensures Tokens("foo") == ["foo"]
    ensures Tokens("FOO") == ["foo"]
    ensures Tokens("foo_bar") == ["foo", "bar"]
    ensures Tokens("FOO_BAR") == ["foo", "bar"]
    ensures Tokens("fooBar") == ["foo", "bar"]
    ensures Tokens("FooBar") == ["foo", "bar"]
    ensures Tokens("foo-bar") == ["foo", "bar"]
  {
    TokensOfFoo();
    TokensOfUpperFoo();
    TokensOfSnake();
    TokensOfUpper();
    TokensOfCamel();
    TokensOfPascal();
    TokensOfLisp();
  }

  // TestToSnake, TestToUpper, TestToCamel, TestToPascal, TestToLisp

  lemma TitleFooBar()
    ensures Title("foo") == "Foo" && Title("bar") == "Bar"
  {
  }

  lemma PascalJoinFooBar()
    ensures PascalJoin(FooBar) == "FooBar"
  {
    TitleFooBar();
    assert FooBar[..1] == ["foo"];
    assert PascalJoin(["foo"]) == "Foo";
    assert PascalJoin(FooBar) == PascalJoin(["foo"]) + Title("bar");
  }

  lemma CamelJoinFooBar()
    ensures CamelJoin(FooBar) == "fooBar"
  {
    assert FooBar[1..] == ["bar"];
    assert PascalJoin(["bar"]) == "Bar" by {
      TitleFooBar();
      assert ["bar"][..0] == [];
    }
    assert CamelJoin(FooBar) == "foo" + PascalJoin(["bar"]);
  }

  lemma JoinFooBar()
    ensures Join(FooBar, '_') == "foo_bar"
    ensures Join(FooBar, '-') == "foo-bar"
  {
  }

  lemma UpperFooBar()
    ensures ToUpper("foo_bar") == "FOO_BAR"
  {
  }

  /** Every word tokenized as foo, bar is rendered the same way. */
  lemma RenderFooBar(word: string)
    requires Tokens(word) == FooBar
    ensures SnakeCase(word) == "foo_bar"
    ensures UpperCase(word) == "FOO_BAR"
    ensures CamelCase(word) == "fooBar"
    ensures PascalCase(word) == "FooBar"
    ensures LispCase(word) == "foo-bar"
  {
    JoinFooBar();
    UpperFooBar();
    PascalJoinFooBar();
    CamelJoinFooBar();
  }

  lemma RenderFoo()
    ensures SnakeCase("foo") == "foo"
    ensures UpperCase("foo") == "FOO"
    ensures CamelCase("foo") == "foo"
    ensures PascalCase("foo") == "Foo"
    ensures LispCase("foo") == "foo"
  {
    TokensOfFoo();
    assert ToUpper("foo") == "FOO";
    assert Title("foo") == "Foo";
    assert PascalJoin(["foo"]) == "Foo";
  }

  lemma SnakeCaseExamples()
    ensures SnakeCase("foo") == "foo"
    ensures SnakeCase("foo_bar") == "foo_bar"
    ensures SnakeCase("FOO_BAR") == "foo_bar"
    ensures SnakeCase("fooBar") == "foo_bar"
    ensures SnakeCase("FooBar") == "foo_bar"
    ensures SnakeCase("foo-bar") == "foo_bar"
  {
    RenderFoo();
    TokensOfSnake();
    RenderFooBar("foo_bar");
    TokensOfUpper();
    RenderFooBar("FOO_BAR");
    TokensOfCamel();
    RenderFooBar("fooBar");
    TokensOfPascal();
    RenderFooBar("FooBar");
    TokensOfLisp();
    RenderFooBar("foo-bar");
  }

  lemma UpperCaseExamples()
    ensures UpperCase("foo") == "FOO"
    ensures UpperCase("foo_bar") == "FOO_BAR"
    ensures UpperCase("FOO_BAR") == "FOO_BAR"
    ensures UpperCase("fooBar") == "FOO_BAR"
    ensures UpperCase("FooBar") == "FOO_BAR"
    ensures UpperCase("foo-bar") == "FOO_BAR"
  {
    RenderFoo();
    TokensOfSnake();
    RenderFooBar("foo_bar");
    TokensOfUpper();
    RenderFooBar("FOO_BAR");
    TokensOfCamel();
    RenderFooBar("fooBar");
    TokensOfPascal();
    RenderFooBar("FooBar");
    TokensOfLisp();
    RenderFooBar("foo-bar");
  }

  lemma CamelCaseExamples()
    ensures CamelCase("foo") == "foo"
    ensures CamelCase("foo_bar") == "fooBar"
    ensures CamelCase("FOO_BAR") == "fooBar"
    ensures CamelCase("fooBar") == "fooBar"
    ensures CamelCase("FooBar") == "fooBar"
    ensures CamelCase("foo-bar") == "fooBar"
  {
    RenderFoo();
    TokensOfSnake();
    RenderFooBar("foo_bar");
    TokensOfUpper();
    RenderFooBar("FOO_BAR");
    TokensOfCamel();
    RenderFooBar("fooBar");
    TokensOfPascal();
    RenderFooBar("FooBar");
    TokensOfLisp();
    RenderFooBar("foo-bar");
  }

  lemma PascalCaseExamples()
    ensures PascalCase("foo") == "Foo"
    ensures PascalCase("foo_bar") == "FooBar"
    ensures PascalCase("FOO_BAR") == "FooBar"
    ensures PascalCase("fooBar") == "FooBar"
    ensures PascalCase("FooBar") == "FooBar"
    ensures PascalCase("foo-bar") == "FooBar"
  {
    RenderFoo();
    TokensOfSnake();
    RenderFooBar("foo_bar");
    TokensOfUpper();
    RenderFooBar("FOO_BAR");
    TokensOfCamel();
    RenderFooBar("fooBar");
    TokensOfPascal();
    RenderFooBar("FooBar");
    TokensOfLisp();
    RenderFooBar("foo-bar");
  }

  lemma LispCaseExamples()
    ensures LispCase("foo") == "foo"
    ensures LispCase("foo_bar") == "foo-bar"
    ensures LispCase("FOO_BAR") == "foo-bar"
    ensures LispCase("fooBar") == "foo-bar"
    ensures LispCase("FooBar") == "foo-bar"
    ensures LispCase("foo-bar") == "foo-bar"
  {
    RenderFoo();
    TokensOfSnake();
    RenderFooBar("foo_bar");
    TokensOfUpper();
    RenderFooBar("FOO_BAR");
    TokensOfCamel();
    RenderFooBar("fooBar");
    TokensOfPascal();
    RenderFooBar("FooBar");
    TokensOfLisp();
    RenderFooBar("foo-bar");
  }

  // TestChangeCase

  // One lemma per option keeps each proof within the solver's budget.

  lemma OptionS(word: string)
    requires Tokens(word) == FooBar
    ensures ChangeCase("s", word) == "foo_bar"
  {
    assert ToLower("s") == "s" by {
      LowerFixedIff("s");
    }
    assert ChangeCase("s", word) == SnakeCase(word);
    RenderFooBar(word);
  }

  lemma OptionSnake(word: string)
    requires Tokens(word) == FooBar
    ensures ChangeCase("snake", word) == "foo_bar"
  {
    assert ToLower("snake") == "snake" by {
      LowerFixedIff("snake");
    }
    assert ChangeCase("snake", word) == SnakeCase(word);
    RenderFooBar(word);
  }

  lemma OptionU(word: string)
    requires Tokens(word) == FooBar
    ensures ChangeCase("u", word) == "FOO_BAR"
  {
    assert ToLower("u") == "u" by {
      LowerFixedIff("u");
    }
    assert ChangeCase("u", word) == UpperCase(word);
    RenderFooBar(word);
  }

  lemma OptionUpper(word: string)
    requires Tokens(word) == FooBar
    ensures ChangeCase("upper", word) == "FOO_BAR"
  {
    assert ToLower("upper") == "upper" by {
      LowerFixedIff("upper");
    }
    assert ChangeCase("upper", word) == UpperCase(word);
    RenderFooBar(word);
  }

  lemma OptionC(word: string)
    requires Tokens(word) == FooBar
    ensures ChangeCase("c", word) == "fooBar"
  {
    assert ToLower("c") == "c" by {
      LowerFixedIff("c");
    }
    assert ChangeCase("c", word) == CamelCase(word);
    RenderFooBar(word);
  }

  lemma OptionCamel(word: string)
    requires Tokens(word) == FooBar
    ensures ChangeCase("camel", word) == "fooBar"
  {
    assert ToLower("camel") == "camel" by {
      LowerFixedIff("camel");
    }
    assert ChangeCase("camel", word) == CamelCase(word);
    RenderFooBar(word);
  }

  lemma OptionP(word: string)
    requires Tokens(word) == FooBar
    ensures ChangeCase("p", word) == "FooBar"
  {
    assert ToLower("p") == "p" by {
      LowerFixedIff("p");
    }
    assert ChangeCase("p", word) == PascalCase(word);
    RenderFooBar(word);
  }

  lemma OptionPascal(word: string)
    requires Tokens(word) == FooBar
    ensures ChangeCase("pascal", word) == "FooBar"
  {
    assert ToLower("pascal") == "pascal" by {
      LowerFixedIff("pascal");
    }
    assert ChangeCase("pascal", word) == PascalCase(word);
    RenderFooBar(word);
  }

  lemma OptionL(word: string)
    requires Tokens(word) == FooBar
    ensures ChangeCase("l", word) == "foo-bar"
  {
    assert ToLower("l") == "l" by {
      LowerFixedIff("l");
    }
    assert ChangeCase("l", word) == LispCase(word);
    RenderFooBar(word);
  }

  lemma OptionLisp(word: string)
    requires Tokens(word) == FooBar
    ensures ChangeCase("lisp", word) == "foo-bar"
  {
    assert ToLower("lisp") == "lisp" by {
      LowerFixedIff("lisp");
    }
    assert ChangeCase("lisp", word) == LispCase(word);
    RenderFooBar(word);
  }

  lemma ChangeCaseExamples()
    ensures ChangeCase("s", "FooBar") == "foo_bar"
    ensures ChangeCase("snake", "FooBar") == "foo_bar"
    ensures ChangeCase("u", "foo_bar") == "FOO_BAR"
    ensures ChangeCase("upper", "foo_bar") == "FOO_BAR"
    ensures ChangeCase("c", "foo_bar") == "fooBar"
    ensures ChangeCase("camel", "foo_bar") == "fooBar"
    ensures ChangeCase("p", "foo_bar") == "FooBar"
    ensures ChangeCase("pascal", "foo_bar") == "FooBar"
    ensures ChangeCase("l", "foo_bar") == "foo-bar"
    ensures ChangeCase("lisp", "foo_bar") == "foo-bar"
  {
    TokensOfPascal();
    OptionS("FooBar");
    OptionSnake("FooBar");
    TokensOfSnake();
    OptionU("foo_bar");
    OptionUpper("foo_bar");
    OptionC("foo_bar");
    OptionCamel("foo_bar");
    OptionP("foo_bar");
    OptionPascal("foo_bar");
    OptionL("foo_bar");
    OptionLisp("foo_bar");
  }

  // Behaviour of the code beyond the test vectors

  /** An acronym followed by a capitalised word stays one token: no boundary is placed
      before a capital that follows another capital. */
  lemma LowerAcronym()
    ensures ToLower("HTTP") == "http"
  {
  }

  lemma LowerCapitalisedWord()
    ensures ToLower("Server") == "server"
  {
  }

  lemma LowerAcronymWord()
    ensures ToLower("HTTPServer") == "httpserver"
  {
    assert "HTTPServer" == "HTTP" + "Server";
    ToLowerAppend("HTTP", "Server");
    LowerAcronym();
    LowerCapitalisedWord();
  }

  lemma AcronymWordIsPascal()
    ensures DetermineCase("HTTPServer") == Pascal
  {
  }

  lemma AcronymWordHasNoBoundary()
    ensures forall k :: 0 < k < |"HTTPServer"| ==> !IsBoundary("HTTPServer", k)
  {
  }

  lemma AcronymStaysOneToken()
    ensures DetermineCase("HTTPServer") == Pascal
    ensures Tokens("HTTPServer") == ["httpserver"]
  {
    var w := "HTTPServer";
    AcronymWordIsPascal();
    AcronymWordHasNoBoundary();
    ScannedWordTokens(w);
    SegmentsFirstToken(w, |w|);
    assert w[..|w|] == w;
    LowerAcronymWord();
  }

  /** title leaves a one-letter token as it is, so PascalCase and camelCase glue it to its
      neighbour without a capital. */
  lemma OneLetterTokenNotCapitalised()
    ensures Tokens("a_b") == ["a", "b"]
    ensures PascalCase("a_b") == "ab"
    ensures CamelCase("a_b") == "ab"
  {
    assert Join(["a", "b"], '_') == "a_b";
    SnakeRoundTrip(["a", "b"]);
    assert Title("a") == "a" && Title("b") == "b";
    assert PascalJoin(["a"]) == "a";
    assert ["a", "b"][..1] == ["a"] && ["a", "b"][1..] == ["b"];
  }
}
