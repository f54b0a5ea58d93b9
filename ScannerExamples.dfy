/** The scanner on concrete texts, for any classifier that answers as Java's
    tables do on the ASCII range. */
module CreateExamples {
  import opened Create
  import opened CreateProperties

  /** What `Character.isLetter` and `Character.isWhitespace` answer below 0x80:
      the letters are `A`-`Z` and `a`-`z`; whitespace is TAB, LF, VT, FF, CR
      (0x09-0x0D), the four separators 0x1C-0x1F and the space. */
  predicate AgreesOnAscii(cls: Classifier) {
    forall c: Char16 :: c < 0x80 ==>
      (cls.isLetter(c) <==> (0x41 <= c <= 0x5A || 0x61 <= c <= 0x7A)) &&
      (cls.isWhitespace(c) <==> (0x09 <= c <= 0x0D || 0x1C <= c <= 0x20))
  }

  /** The code units of an ASCII text. */
  function Ascii(t: string): (r: JavaString)
    requires forall k :: 0 <= k < |t| ==> t[k] as int < 0x80
    ensures |r| == |t|
    ensures forall k :: 0 <= k < |t| ==> r[k] as int == t[k] as int
  {
    seq(|t|, k requires 0 <= k < |t| => t[k] as int as Char16)
  }

  /** Java's tables leave the parentheses out of both classes. */
  lemma AsciiParens(cls: Classifier)
    requires AgreesOnAscii(cls)
    ensures ParensUnclassified(cls)
  {
    assert LeftParen < 0x80 && RightParen < 0x80;
  }

  lemma AsciiWord(cls: Classifier, t: string)
    requires AgreesOnAscii(cls)
    requires t != [] && forall k :: 0 <= k < |t| ==> 'a' <= t[k] <= 'z'
    ensures Tokens(cls, Ascii(t)) == [Token(Identifier)]
  {
    var s := Ascii(t);
    forall k | 0 <= k < |s|
      ensures cls.isLetter(s[k])
    {
      assert 0x61 <= s[k] <= 0x7A;
    }
    AllLetters(cls, s);
  }

  /** `""` gives no token. */
  lemma EmptyText(cls: Classifier)
    ensures Tokens(cls, Ascii("")) == []
  {
  }

  /** `(())` gives OPEN, OPEN, CLOSE, CLOSE. */
  lemma NestedParens(cls: Classifier)
    requires AgreesOnAscii(cls)
    ensures Tokens(cls, Ascii("(())")) == [Token(Open), Token(Open), Token(Close), Token(Close)]
  {
    AsciiParens(cls);
    var s := Ascii("(())");
    assert s == [LeftParen, LeftParen, RightParen, RightParen];
    assert Tokens(cls, []) == [];
    Peel(cls, s[3..]);
    Peel(cls, s[2..]);
    Peel(cls, s[1..]);
    Peel(cls, s);
  }

  /** A text that starts with a parenthesis: its token, then the rest's tokens. */
  lemma Peel(cls: Classifier, s: JavaString)
    requires ParensUnclassified(cls)
    requires s != [] && (s[0] == LeftParen || s[0] == RightParen)
    ensures Tokens(cls, s) == SeparatorTokens(s[0]) + Tokens(cls, s[1..])
  {
    SplitAt(cls, [], s[0], s[1..]);
    assert [] + [s[0]] + s[1..] == s;
    assert Tokens(cls, []) == [];
  }

  /** `a+b` gives IDENTIFIER, IDENTIFIER: the `+` emits nothing but ends the run. */
  lemma DroppedPlus(cls: Classifier)
    requires AgreesOnAscii(cls)
    ensures Tokens(cls, Ascii("a+b")) == [Token(Identifier), Token(Identifier)]
  {
    var plus: Char16 := 0x2B;
    assert Ascii("a+b") == Ascii("a") + [plus] + Ascii("b");
    SplitAt(cls, Ascii("a"), plus, Ascii("b"));
    AsciiWord(cls, "a");
    AsciiWord(cls, "b");
  }

  /** The tokens of two words with one space between them. */
  lemma SpacedWords(cls: Classifier, u: string, v: string)
    requires AgreesOnAscii(cls)
    requires u != [] && forall k :: 0 <= k < |u| ==> 'a' <= u[k] <= 'z'
    requires v != [] && forall k :: 0 <= k < |v| ==> 'a' <= v[k] <= 'z'
    ensures Tokens(cls, Ascii(u) + Ascii(" ") + Ascii(v)) ==
      [Token(Identifier), Token(Whitespace), Token(Identifier)]
  {
    var a, space, b := Ascii(u), Ascii(" "), Ascii(v);
    assert 0x61 <= a[|a| - 1] <= 0x7A && 0x61 <= b[0] <= 0x7A && space[0] == 0x20;
    AsciiWord(cls, u);
    AsciiWord(cls, v);
    WhitespaceRun(cls, space);
    Concat(cls, a, space);
    Concat(cls, a + space, b);
  }

  /** `abc def` gives IDENTIFIER, WHITESPACE, IDENTIFIER. */
  lemma TwoWords(cls: Classifier)
    requires AgreesOnAscii(cls)
    ensures Tokens(cls, Ascii("abc def")) == [Token(Identifier), Token(Whitespace), Token(Identifier)]
  {
    assert Ascii("abc def") == Ascii("abc") + Ascii(" ") + Ascii("def");
    SpacedWords(cls, "abc", "def");
  }

  /** `foo(bar baz)` gives IDENTIFIER, OPEN, IDENTIFIER, WHITESPACE, IDENTIFIER, CLOSE. */
  lemma MixedBoundaries(cls: Classifier)
    requires AgreesOnAscii(cls)
    ensures Tokens(cls, Ascii("foo(bar baz)")) ==
      [Token(Identifier), Token(Open), Token(Identifier), Token(Whitespace), Token(Identifier), Token(Close)]
  {
    AsciiParens(cls);
    var inner := Ascii("bar") + Ascii(" ") + Ascii("baz");
    assert Ascii("foo(bar baz)") == Ascii("foo") + [LeftParen] + (inner + [RightParen] + []);
    SplitAt(cls, inner, RightParen, []);
    SplitAt(cls, Ascii("foo"), LeftParen, inner + [RightParen] + []);
    SpacedWords(cls, "bar", "baz");
    AsciiWord(cls, "foo");
  }

  /** Scanning the same source twice gives the same tokens: the scan keeps no
      state between calls. */
  method TokenizeTwice(cls: Classifier, source: SourceText) returns (first: seq<Token>, second: seq<Token>)
    ensures first == second
  {
    first := Tokenize(cls, source);
    second := Tokenize(cls, source);
  }
}
