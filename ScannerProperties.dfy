/** What the scan promises about its output, stated over the specification
    `Lex` / `Tokens` that `Create.Tokenize` is proved to compute. */
module CreateProperties {
  import opened Create

  // ---------------------------------------------------------------------------
  // Shape of the output: spans in order, each a maximal run or one delimiter
  // ---------------------------------------------------------------------------

  /** The spans lie inside the scanned part of the text, each non-empty, in
      text order and without overlap; so every turn advances the cursor. */
  lemma {:induction false} LexOrdered(cls: Classifier, s: JavaString, i: nat)
    requires i <= |s|
    ensures Ordered(Lex(cls, s, i), i, |s|)
    decreases |s| - i
  {
    if i < |s| {
      var (next, emitted) := Step(cls, s, i);
      LexOrdered(cls, s, next);
      OrderedAppend(emitted, Lex(cls, s, next), i, next, |s|);
    }
  }

  /** Every span is what its kind says: an identifier is letters up to a
      non-letter or the end, a whitespace token is whitespace up to a
      non-whitespace or the end, `(` and `)` are single units. */
  lemma {:induction false} LexClassified(cls: Classifier, s: JavaString, i: nat)
    requires i <= |s|
    ensures forall k :: 0 <= k < |Lex(cls, s, i)| ==> Classified(cls, s, Lex(cls, s, i)[k])
    decreases |s| - i
  {
    if i < |s| {
      var (next, emitted) := Step(cls, s, i);
      LexClassified(cls, s, next);
      var rest := Lex(cls, s, next);
      assert Lex(cls, s, i) == emitted + rest;
      forall k | 0 <= k < |emitted + rest|
        ensures Classified(cls, s, (emitted + rest)[k])
      {
        if k >= |emitted| {
          assert (emitted + rest)[k] == rest[k - |emitted|];
        }
      }
    }
  }

  /** Two neighbouring code units that no run can span: not both letters and
      not both whitespace. */
  predicate Separated(cls: Classifier, before: Char16, after: Char16) {
    !(cls.isLetter(before) && cls.isLetter(after)) &&
    !(cls.isWhitespace(before) && cls.isWhitespace(after))
  }

  /** A scan position where no run is in progress: the start, the end, or
      between two separated code units. */
  predicate Boundary(cls: Classifier, s: JavaString, i: nat) {
    i == 0 || i >= |s| || Separated(cls, s[i - 1], s[i])
  }

  /** The span cannot be extended to the left either: the code unit before
      an identifier is not a letter, the one before a whitespace token is not
      whitespace. */
  predicate LeftMaximal(cls: Classifier, s: JavaString, span: Span) {
    span.start == 0 || span.start > |s| ||
    match span.kind
    case Identifier => !cls.isLetter(s[span.start - 1])
    case Whitespace => !cls.isWhitespace(s[span.start - 1])
    case _ => true
  }

  /** Every turn of the scan ends on a boundary. */
  lemma StepEndsOnBoundary(cls: Classifier, s: JavaString, i: nat)
    requires Disjoint(cls)
    requires i < |s|
    ensures Boundary(cls, s, Step(cls, s, i).0)
  {
    var (next, emitted) := Step(cls, s, i);
    if next < |s| {
      if emitted != [] {
        assert Classified(cls, s, emitted[0]);
        assert emitted[0].start <= next - 1 < emitted[0].end;
      }
    }
  }

  lemma {:induction false} LexLeftMaximalFrom(cls: Classifier, s: JavaString, i: nat)
    requires Disjoint(cls)
    requires i <= |s| && Boundary(cls, s, i)
    ensures forall k :: 0 <= k < |Lex(cls, s, i)| ==> LeftMaximal(cls, s, Lex(cls, s, i)[k])
    decreases |s| - i
  {
    if i < |s| {
      var (next, emitted) := Step(cls, s, i);
      StepEndsOnBoundary(cls, s, i);
      LexLeftMaximalFrom(cls, s, next);
      var rest := Lex(cls, s, next);
      assert Lex(cls, s, i) == emitted + rest;
      forall k | 0 <= k < |emitted + rest|
        ensures LeftMaximal(cls, s, (emitted + rest)[k])
      {
        if k >= |emitted| {
          assert (emitted + rest)[k] == rest[k - |emitted|];
        } else {
          assert Classified(cls, s, emitted[0]);
        }
      }
    }
  }

  /** Identifier and whitespace runs are maximal on both sides: with the
      right side from `LexClassified`, no token is part of a longer run of
      its class. This needs the two classes to be disjoint, as they are in
      Java's tables: a unit that were both would join a whitespace run. */
  lemma RunsMaximal(cls: Classifier, s: JavaString)
    requires Disjoint(cls)
    ensures forall k :: 0 <= k < |Lex(cls, s, 0)| ==>
      Classified(cls, s, Lex(cls, s, 0)[k]) && LeftMaximal(cls, s, Lex(cls, s, 0)[k])
  {
    LexClassified(cls, s, 0);
    LexLeftMaximalFrom(cls, s, 0);
  }

  // ---------------------------------------------------------------------------
  // What is silently dropped
  // ---------------------------------------------------------------------------

  /** Position `p` lies inside one of the spans. */
  predicate Covers(spans: seq<Span>, p: nat) {
    exists k :: 0 <= k < |spans| && spans[k].start <= p < spans[k].end
  }

  lemma CoversAppend(a: seq<Span>, b: seq<Span>, p: nat)
    ensures Covers(a + b, p) <==> Covers(a, p) || Covers(b, p)
  {
    if Covers(a + b, p) {
      var k :| 0 <= k < |a + b| && (a + b)[k].start <= p < (a + b)[k].end;
      if k >= |a| {
        assert b[k - |a|] == (a + b)[k];
      } else {
        assert a[k] == (a + b)[k];
      }
    }
    if Covers(a, p) {
      var k :| 0 <= k < |a| && a[k].start <= p < a[k].end;
      assert (a + b)[k] == a[k];
    }
    if Covers(b, p) {
      var k :| 0 <= k < |b| && b[k].start <= p < b[k].end;
      assert (a + b)[|a| + k] == b[k];
    }
  }

  lemma {:induction false} CoverageFrom(cls: Classifier, s: JavaString, i: nat)
    requires i <= |s|
    ensures forall p :: i <= p < |s| ==> (Covers(Lex(cls, s, i), p) <==> !Dropped(cls, s[p]))
    decreases |s| - i
  {
    if i < |s| {
      var (next, emitted) := Step(cls, s, i);
      var rest := Lex(cls, s, next);
      CoverageFrom(cls, s, next);
      LexOrdered(cls, s, next);
      assert Lex(cls, s, i) == emitted + rest;
      forall p | i <= p < |s|
        ensures Covers(emitted + rest, p) <==> !Dropped(cls, s[p])
      {
        CoversAppend(emitted, rest, p);
        if p < next {
          assert !Covers(rest, p);
          if emitted != [] {
            assert Classified(cls, s, emitted[0]);
            assert Covers(emitted, p);
          }
        } else if emitted != [] {
          assert !Covers(emitted, p);
        }
      }
    }
  }

  /** The scan drops exactly the code units that are neither letters,
      whitespace nor parentheses: every other unit lies inside a token's
      span, and no dropped unit does. */
  lemma DroppedExactly(cls: Classifier, s: JavaString)
    ensures forall p :: 0 <= p < |s| ==> (Covers(Lex(cls, s, 0), p) <==> !Dropped(cls, s[p]))
  {
    CoverageFrom(cls, s, 0);
  }

  // ---------------------------------------------------------------------------
  // Delimiters are atomic
  // ---------------------------------------------------------------------------

  /** A run of units satisfying `p` holds no unit that fails `p`. */
  lemma RunLacks(s: JavaString, i: nat, j: nat, p: Char16 -> bool, unit: Char16)
    requires i <= j <= |s|
    requires forall k :: i <= k < j ==> p(s[k])
    requires !p(unit)
    ensures multiset(s[i..j])[unit] == 0
  {
    assert unit !in s[i..j];
  }

  /** One turn emits as many `kind` tokens as it passes `unit` code units. */
  lemma StepDelimiterCount(cls: Classifier, s: JavaString, i: nat, kind: TokenType, unit: Char16)
    requires ParensUnclassified(cls)
    requires (kind == Open && unit == LeftParen) || (kind == Close && unit == RightParen)
    requires i < |s|
    ensures multiset(Kinds(Step(cls, s, i).1))[Token(kind)] == multiset(s[i..Step(cls, s, i).0])[unit]
  {
    var (next, emitted) := Step(cls, s, i);
    if cls.isLetter(s[i]) {
      RunLacks(s, i, next, cls.isLetter, unit);
      assert Kinds(emitted) == [Token(Identifier)];
    } else if cls.isWhitespace(s[i]) {
      RunLacks(s, i, next, cls.isWhitespace, unit);
      assert Kinds(emitted) == [Token(Whitespace)];
    } else {
      assert s[i..next] == [s[i]];
      assert Kinds(emitted) == SeparatorTokens(s[i]);
    }
  }

  lemma {:induction false} DelimiterCountFrom(cls: Classifier, s: JavaString, i: nat, kind: TokenType, unit: Char16)
    requires ParensUnclassified(cls)
    requires (kind == Open && unit == LeftParen) || (kind == Close && unit == RightParen)
    requires i <= |s|
    ensures multiset(Kinds(Lex(cls, s, i)))[Token(kind)] == multiset(s[i..])[unit]
    decreases |s| - i
  {
    if i < |s| {
      var (next, emitted) := Step(cls, s, i);
      var rest := Lex(cls, s, next);
      DelimiterCountFrom(cls, s, next, kind, unit);
      StepDelimiterCount(cls, s, i, kind, unit);
      assert Lex(cls, s, i) == emitted + rest;
      KindsAppend(emitted, rest);
      assert s[i..] == s[i..next] + s[next..];
    }
  }

  /** There are as many OPEN tokens as `(` units and as many CLOSE tokens as
      `)` units: a run of parentheses is never merged into one token. */
  lemma DelimitersAtomic(cls: Classifier, s: JavaString)
    requires ParensUnclassified(cls)
    ensures multiset(Tokens(cls, s))[Token(Open)] == multiset(s)[LeftParen]
    ensures multiset(Tokens(cls, s))[Token(Close)] == multiset(s)[RightParen]
  {
    DelimiterCountFrom(cls, s, 0, Open, LeftParen);
    DelimiterCountFrom(cls, s, 0, Close, RightParen);
    assert s[0..] == s;
  }

  // ---------------------------------------------------------------------------
  // Texts of one class
  // ---------------------------------------------------------------------------

  /** A non-empty text of letters is one identifier. */
  lemma AllLetters(cls: Classifier, s: JavaString)
    requires s != []
    requires forall k :: 0 <= k < |s| ==> cls.isLetter(s[k])
    ensures Tokens(cls, s) == [Token(Identifier)]
  {
    assert Step(cls, s, 0) == (|s|, [Span(Identifier, 0, |s|)]);
    assert Lex(cls, s, 0) == [Span(Identifier, 0, |s|)] + Lex(cls, s, |s|);
  }

  /** A non-empty text of whitespace units that are not letters is one
      whitespace token. */
  lemma WhitespaceRun(cls: Classifier, s: JavaString)
    requires s != []
    requires forall k :: 0 <= k < |s| ==> cls.isWhitespace(s[k]) && !cls.isLetter(s[k])
    ensures Tokens(cls, s) == [Token(Whitespace)]
  {
    assert Step(cls, s, 0) == (|s|, [Span(Whitespace, 0, |s|)]);
    assert Lex(cls, s, 0) == [Span(Whitespace, 0, |s|)] + Lex(cls, s, |s|);
  }

  /** A non-empty text of whitespace is one whitespace token, when no unit is
      both a letter and whitespace (as in Java's tables). */
  lemma AllWhitespace(cls: Classifier, s: JavaString)
    requires Disjoint(cls)
    requires s != []
    requires forall k :: 0 <= k < |s| ==> cls.isWhitespace(s[k])
    ensures Tokens(cls, s) == [Token(Whitespace)]
  {
    WhitespaceRun(cls, s);
  }

  // ---------------------------------------------------------------------------
  // Composition
  // ---------------------------------------------------------------------------

  /** Appending text after a run that it cannot continue does not change
      where the run ends. */
  lemma {:induction false} RunEndPrefix(u: JavaString, v: JavaString, i: nat, p: Char16 -> bool)
    requires i <= |u|
    requires RunEnd(u, i, p) < |u| || v == [] || !p(v[0])
    ensures RunEnd(u + v, i, p) == RunEnd(u, i, p)
    decreases |u| - i
  {
    if i < |u| {
      assert (u + v)[i] == u[i];
      if p(u[i]) {
        RunEndPrefix(u, v, i + 1, p);
      }
    } else if v != [] {
      assert (u + v)[i] == v[0];
    }
  }

  /** Text placed before a run does not change its length. */
  lemma {:induction false} RunEndShift(x: JavaString, v: JavaString, i: nat, p: Char16 -> bool)
    requires i <= |v|
    ensures RunEnd(x + v, |x| + i, p) == |x| + RunEnd(v, i, p)
    decreases |v| - i
  {
    if i < |v| {
      assert (x + v)[|x| + i] == v[i];
      if p(v[i]) {
        RunEndShift(x, v, i + 1, p);
      }
    }
  }

  /** Scanning `u + v` up to the end of `u` emits what scanning `u` alone does,
      when the last unit of `u` and the first of `v` are separated. */
  lemma {:induction false} LexPrefix(cls: Classifier, u: JavaString, v: JavaString, i: nat)
    requires i <= |u|
    requires u == [] || v == [] || Separated(cls, u[|u| - 1], v[0])
    ensures Lex(cls, u + v, i) == Lex(cls, u, i) + Lex(cls, u + v, |u|)
    decreases |u| - i
  {
    if i < |u| {
      var w := u + v;
      assert w[i] == u[i];
      if cls.isLetter(u[i]) {
        var r := RunEnd(u, i + 1, cls.isLetter);
        assert r == |u| ==> cls.isLetter(u[|u| - 1]);
        RunEndPrefix(u, v, i + 1, cls.isLetter);
      } else if cls.isWhitespace(u[i]) {
        var r := RunEnd(u, i + 1, cls.isWhitespace);
        assert r == |u| ==> cls.isWhitespace(u[|u| - 1]);
        RunEndPrefix(u, v, i + 1, cls.isWhitespace);
      }
      var (next, emitted) := Step(cls, u, i);
      assert Step(cls, w, i) == (next, emitted);
      LexPrefix(cls, u, v, next);
      assert Lex(cls, w, i) == emitted + Lex(cls, w, next);
      assert Lex(cls, u, i) == emitted + Lex(cls, u, next);
    }
  }

  /** Scanning `x + v` from inside `v` gives the tokens of scanning `v` alone. */
  lemma {:induction false} KindsLexShift(cls: Classifier, x: JavaString, v: JavaString, i: nat)
    requires i <= |v|
    ensures Kinds(Lex(cls, x + v, |x| + i)) == Kinds(Lex(cls, v, i))
    decreases |v| - i
  {
    if i < |v| {
      var w := x + v;
      assert w[|x| + i] == v[i];
      RunEndShift(x, v, i + 1, cls.isLetter);
      RunEndShift(x, v, i + 1, cls.isWhitespace);
      var (next, emitted) := Step(cls, v, i);
      var (next', emitted') := Step(cls, w, |x| + i);
      assert next' == |x| + next;
      assert Kinds(emitted') == Kinds(emitted);
      KindsLexShift(cls, x, v, next);
      KindsAppend(emitted, Lex(cls, v, next));
      KindsAppend(emitted', Lex(cls, w, next'));
    }
  }

  /** Two texts whose meeting units are separated scan independently: the
      tokens of `u + v` are those of `u` followed by those of `v`. */
  lemma Concat(cls: Classifier, u: JavaString, v: JavaString)
    requires u == [] || v == [] || Separated(cls, u[|u| - 1], v[0])
    ensures Tokens(cls, u + v) == Tokens(cls, u) + Tokens(cls, v)
  {
    LexPrefix(cls, u, v, 0);
    KindsAppend(Lex(cls, u, 0), Lex(cls, u + v, |u|));
    KindsLexShift(cls, u, v, 0);
  }

  /** The token a single unit that is neither letter nor whitespace gives:
      OPEN for `(`, CLOSE for `)`, none for anything else. */
  function SeparatorTokens(c: Char16): seq<Token> {
    if c == LeftParen then [Token(Open)]
    else if c == RightParen then [Token(Close)]
    else []
  }

  /** A unit that is neither a letter nor whitespace cuts the text in two: the
      tokens are those of the text before it, its own token if it is a
      parenthesis (nothing if it is anything else), then those of the text
      after it. So `a+b` gives two identifiers where `ab` gives one. */
  lemma SplitAt(cls: Classifier, u: JavaString, c: Char16, v: JavaString)
    requires !cls.isLetter(c) && !cls.isWhitespace(c)
    ensures Tokens(cls, u + [c] + v) == Tokens(cls, u) + SeparatorTokens(c) + Tokens(cls, v)
  {
    Concat(cls, u, [c]);
    Concat(cls, u + [c], v);
    assert Step(cls, [c], 0).1 == Lex(cls, [c], 0);
    assert Kinds(Lex(cls, [c], 0)) == SeparatorTokens(c);
  }

  /** What Java's tables answer for the two halves of a surrogate pair: a
      surrogate code unit (0xD800-0xDFFF) is neither a letter nor whitespace. */
  predicate SurrogatesUnclassified(cls: Classifier) {
    forall c: Char16 :: 0xD800 <= c <= 0xDFFF ==> !cls.isLetter(c) && !cls.isWhitespace(c)
  }

  /** A character outside the Basic Multilingual Plane is a high and a low
      surrogate unit. The scan drops both and emits nothing for it, even when
      it is a letter, and the text on either side is scanned as if apart. */
  lemma SupplementaryDropped(cls: Classifier, u: JavaString, high: Char16, low: Char16, v: JavaString)
    requires SurrogatesUnclassified(cls)
    requires 0xD800 <= high <= 0xDBFF && 0xDC00 <= low <= 0xDFFF
    ensures Tokens(cls, u + [high, low] + v) == Tokens(cls, u) + Tokens(cls, v)
  {
    SplitAt(cls, u, high, [low] + v);
    SplitAt(cls, [], low, v);
    assert u + [high, low] + v == u + [high] + ([low] + v);
    assert [] + [low] + v == [low] + v;
    assert Tokens(cls, []) == [];
  }
}
