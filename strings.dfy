/**
 The part of Go's `strings` and `unicode` packages that the case converter
 relies on, restricted to ASCII case rules: case tests and case mapping of
 characters and strings, `strings.Split` and `strings.Join` with a
 one-character separator, and plain concatenation of a sequence of strings
 (what a `strings.Builder` produces after a series of `WriteString` calls).
 */
module Strings {

  /** unicode.IsUpper on ASCII: the letters 'A'..'Z', none of which is lower-case. */
  predicate IsUpper(c: char): (b: bool)
    ensures b ==> !('a' <= c <= 'z')
  {
    'A' <= c <= 'Z'
  }

  /** unicode.IsLower on ASCII: the letters 'a'..'z', none of which is upper-case. */
  predicate IsLower(c: char): (b: bool)
    ensures b ==> !('A' <= c <= 'Z')
  {
    'a' <= c <= 'z'
  }

  /** The ASCII lower-case mapping of one character; anything but 'A'..'Z' is unchanged. */
  function LowerChar(c: char): (r: char)
    ensures !IsUpper(r)
    ensures IsUpper(c) ==> IsLower(r)
    ensures !IsUpper(c) ==> r == c
  {
    if IsUpper(c) then (c as int + 32) as char else c
  }

  /** The ASCII upper-case mapping of one character; anything but 'a'..'z' is unchanged. */
  function UpperChar(c: char): (r: char)
    ensures !IsLower(r)
    ensures IsLower(c) ==> IsUpper(r)
    ensures !IsLower(c) ==> r == c
  {
    if IsLower(c) then (c as int - 32) as char else c
  }

  /** No character of s is an upper-case letter. */
  predicate NoUpper(s: string) {
    forall i :: 0 <= i < |s| ==> !IsUpper(s[i])
  }

  /** No character of s is a lower-case letter. */
  predicate NoLower(s: string) {
    forall i :: 0 <= i < |s| ==> !IsLower(s[i])
  }

  /** strings.ToLower on ASCII text: maps every character, keeps the length. */
  function ToLower(s: string): (r: string)
    ensures |r| == |s|
    ensures forall i :: 0 <= i < |s| ==> r[i] == LowerChar(s[i])
  {
    if s == [] then [] else [LowerChar(s[0])] + ToLower(s[1..])
  }

  /** strings.ToUpper on ASCII text: maps every character, keeps the length. */
  function ToUpper(s: string): (r: string)
    ensures |r| == |s|
    ensures forall i :: 0 <= i < |s| ==> r[i] == UpperChar(s[i])
  {
    if s == [] then [] else [UpperChar(s[0])] + ToUpper(s[1..])
  }

  /** A string is its own lower-case form exactly when it holds no upper-case letter. */
  lemma LowerFixedIff(s: string)
    ensures ToLower(s) == s <==> NoUpper(s)
  {
    if NoUpper(s) {
      assert forall i :: 0 <= i < |s| ==> ToLower(s)[i] == s[i];
    }
  }

  /** A string is its own upper-case form exactly when it holds no lower-case letter. */
  lemma UpperFixedIff(s: string)
    ensures ToUpper(s) == s <==> NoLower(s)
  {
    if NoLower(s) {
      assert forall i :: 0 <= i < |s| ==> ToUpper(s)[i] == s[i];
    }
  }

  lemma ToLowerAppend(a: string, b: string)
    ensures ToLower(a + b) == ToLower(a) + ToLower(b)
  {
    assert forall i :: 0 <= i < |a + b| ==> ToLower(a + b)[i] == (ToLower(a) + ToLower(b))[i];
  }

  /** Lower-casing after upper-casing forgets the upper-casing. */
  lemma LowerOfUpper(s: string)
    ensures ToLower(ToUpper(s)) == ToLower(s)
  {
    assert forall i :: 0 <= i < |s| ==> ToLower(ToUpper(s))[i] == ToLower(s)[i];
  }

  /** Upper-casing after lower-casing forgets the lower-casing. */
  lemma UpperOfLower(s: string)
    ensures ToUpper(ToLower(s)) == ToUpper(s)
  {
    assert forall i :: 0 <= i < |s| ==> ToUpper(ToLower(s))[i] == ToUpper(s)[i];
  }

  lemma ToLowerIdempotent(s: string)
    ensures ToLower(ToLower(s)) == ToLower(s)
  {
    LowerFixedIff(ToLower(s));
  }

  /** strings.Split(s, string(sep)): the pieces of s between occurrences of sep.
      Doubled, leading or trailing separators give empty pieces, and the empty
      string gives one empty piece. */
  function Split(s: string, sep: char): (r: seq<string>)
    ensures |r| >= 1
    ensures forall t :: t in r ==> sep !in t
    decreases |s|
  {
    if s == [] then [[]]
    else
      var rest := Split(s[1..], sep);
      if s[0] == sep then [[]] + rest
      else [[s[0]] + rest[0]] + rest[1..]
  }

  /** strings.Join(ts, string(sep)): the pieces with one separator between neighbours, so
      the result is as long as the pieces together plus one separator fewer than pieces. */
  function Join(ts: seq<string>, sep: char): (r: string)
    ensures |ts| >= 1 ==> |r| == |Concat(ts)| + |ts| - 1
  {
    if |ts| == 0 then []
    else if |ts| == 1 then
      ConcatCons(ts);
      ts[0]
    else
      ConcatCons(ts);
      ts[0] + [sep] + Join(ts[1..], sep)
  }

  /** The pieces written one after the other with no separator. */
  function Concat(ts: seq<string>): string
  {
    if ts == [] then [] else Concat(ts[..|ts| - 1]) + ts[|ts| - 1]
  }

  lemma {:induction false} ConcatAppend(ts: seq<string>, t: string)
    ensures Concat(ts + [t]) == Concat(ts) + t
  {
    assert (ts + [t])[..|ts|] == ts;
  }

  /** Joining the pieces of a split gives back the string that was split. */
  lemma {:induction false} JoinSplit(s: string, sep: char)
    ensures Join(Split(s, sep), sep) == s
    decreases |s|
  {
    if s != [] {
      var rest := Split(s[1..], sep);
      JoinSplit(s[1..], sep);
      if s[0] == sep {
        assert ([[]] + rest)[1..] == rest;
      } else {
        var r := [[s[0]] + rest[0]] + rest[1..];
        assert r[1..] == rest[1..];
        if |rest| == 1 {
          assert [s[0]] + rest[0] == s;
        } else {
          assert Join(rest, sep) == rest[0] + [sep] + Join(rest[1..], sep);
          assert s == [s[0]] + s[1..];
        }
      }
    }
  }

  /** Splitting a string that starts with a separator-free prefix t glues t
      onto the first piece of the rest. */
  lemma {:induction false} SplitPrefix(t: string, u: string, sep: char)
    requires sep !in t
    ensures Split(t + u, sep) == [t + Split(u, sep)[0]] + Split(u, sep)[1..]
    decreases |t|
  {
    if t != [] {
      var su := Split(u, sep);
      assert (t + u)[0] == t[0] != sep;
      assert (t + u)[1..] == t[1..] + u;
      SplitPrefix(t[1..], u, sep);
      var rest := Split(t[1..] + u, sep);
      assert rest == [t[1..] + su[0]] + su[1..];
      assert rest[0] == t[1..] + su[0] && rest[1..] == su[1..];
      assert [t[0]] + (t[1..] + su[0]) == t + su[0];
      assert Split(t + u, sep) == [[t[0]] + rest[0]] + rest[1..];
      assert [t[0]] + rest[0] == t + su[0];
    } else {
      var su := Split(u, sep);
      assert t + u == u;
      assert t + su[0] == su[0];
      assert [su[0]] + su[1..] == su;
    }
  }

  /** Splitting a join of separator-free pieces gives back the pieces. */
  lemma {:induction false} SplitJoin(ts: seq<string>, sep: char)
    requires |ts| >= 1
    requires forall t :: t in ts ==> sep !in t
    ensures Split(Join(ts, sep), sep) == ts
  {
    if |ts| == 1 {
      SplitPrefix(ts[0], [], sep);
      assert ts[0] + [] == ts[0];
    } else {
      var rest := Join(ts[1..], sep);
      SplitJoin(ts[1..], sep);
      assert ts[0] + [sep] + rest == ts[0] + ([sep] + rest);
      SplitPrefix(ts[0], [sep] + rest, sep);
      assert ([sep] + rest)[1..] == rest;
      assert Split([sep] + rest, sep) == [[]] + ts[1..];
      assert Split(Join(ts, sep), sep) == [ts[0] + []] + ts[1..];
      assert ts[0] + [] == ts[0];
      assert [ts[0]] + ts[1..] == ts;
    }
  }

  /** Every piece of a split holds only characters of the string that was split. */
  lemma {:induction false} SplitChars(s: string, sep: char)
    ensures forall t, c :: t in Split(s, sep) && c in t ==> c in s
    decreases |s|
  {
    if s != [] {
      SplitChars(s[1..], sep);
    }
  }

  /** A join contains a character that is not the separator only if one of the pieces does. */
  lemma {:induction false} JoinChars(ts: seq<string>, sep: char, c: char)
    requires c != sep
    requires forall t :: t in ts ==> c !in t
    ensures c !in Join(ts, sep)
  {
    if |ts| > 1 {
      JoinChars(ts[1..], sep, c);
    }
  }

  /** A join of pieces without upper-case letters has none either. */
  lemma {:induction false} JoinNoUpper(ts: seq<string>, sep: char)
    requires !IsUpper(sep)
    requires forall t :: t in ts ==> NoUpper(t)
    ensures NoUpper(Join(ts, sep))
  {
    if |ts| > 1 {
      JoinNoUpper(ts[1..], sep);
      var j := Join(ts[1..], sep);
      var r := ts[0] + [sep] + j;
      assert ts[0] in ts;
      forall i | 0 <= i < |r| ensures !IsUpper(r[i]) {
        if i < |ts[0]| {
          assert r[i] == ts[0][i];
        } else if i > |ts[0]| {
          assert r[i] == j[i - |ts[0]| - 1];
        }
      }
    }
  }

  /** Every piece of a split of a string without upper-case letters has none either. */
  lemma {:induction false} SplitNoUpper(s: string, sep: char)
    requires NoUpper(s)
    ensures forall t :: t in Split(s, sep) ==> NoUpper(t)
    decreases |s|
  {
    if s != [] {
      SplitNoUpper(s[1..], sep);
      var rest := Split(s[1..], sep);
      if s[0] != sep {
        assert rest[0] in rest;
        assert NoUpper([s[0]] + rest[0]);
      }
    }
  }

  /** Lower-casing neither adds nor removes a character that is not a letter. */
  lemma LowerKeepsNonLetter(s: string, c: char)
    requires !IsUpper(c) && !IsLower(c)
    ensures c in ToLower(s) <==> c in s
  {
    if c in ToLower(s) {
      var i :| 0 <= i < |s| && ToLower(s)[i] == c;
      assert s[i] == c;
    }
    if c in s {
      var i :| 0 <= i < |s| && s[i] == c;
      assert ToLower(s)[i] == c;
    }
  }

  /** Upper-casing neither adds nor removes a character that is not a letter. */
  lemma UpperKeepsNonLetter(s: string, c: char)
    requires !IsUpper(c) && !IsLower(c)
    ensures c in ToUpper(s) <==> c in s
  {
    if c in ToUpper(s) {
      var i :| 0 <= i < |s| && ToUpper(s)[i] == c;
      assert s[i] == c;
    }
    if c in s {
      var i :| 0 <= i < |s| && s[i] == c;
      assert ToUpper(s)[i] == c;
    }
  }

  /** Concatenation read from the front: the first piece, then the rest. */
  lemma {:induction false} ConcatCons(ts: seq<string>)
    requires |ts| >= 1
    ensures Concat(ts) == ts[0] + Concat(ts[1..])
    decreases |ts|
  {
    var n := |ts|;
    if n == 1 {
      assert ts[..0] == [] && ts[1..] == [];
    } else {
      ConcatCons(ts[..n - 1]);
      assert ts[..n - 1][1..] == ts[1..][..n - 2];
      assert ts[1..][n - 2] == ts[n - 1];
      assert ts[..n - 1][0] == ts[0];
    }
  }

  /** Pieces without upper-case letters written one after the other have none either. */
  lemma {:induction false} ConcatNoUpper(ts: seq<string>)
    requires forall t :: t in ts ==> NoUpper(t)
    ensures NoUpper(Concat(ts))
    decreases |ts|
  {
    if ts != [] {
      var init, last := ts[..|ts| - 1], ts[|ts| - 1];
      assert forall t :: t in init ==> t in ts;
      ConcatNoUpper(init);
      assert last in ts;
    }
  }
}
