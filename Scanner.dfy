/** The scanner of the `create` program: source units, tokens, the two
    character classifiers it consults, its specification as a function
    (`Lex`, `Tokens`) and the imperative scan itself (`Tokenize`). */
module Create {

  /** A Java `char`: one UTF-16 code unit. A letter outside the Basic
      Multilingual Plane is two such units, each classified on its own. */
  newtype Char16 = c: int | 0 <= c < 0x1_0000

  /** A Java `String`, as the sequence of its code units. */
  type JavaString = seq<Char16>

  const LeftParen: Char16 := 0x28
  const RightParen: Char16 := 0x29

  /** A named text to scan; both fields are final, so it is a value. */
  datatype SourceText = SourceText(name: JavaString, content: JavaString)

  datatype TokenType = Whitespace | Open | Close | Identifier

  /** A token carries only its type. */
  datatype Token = Token(kind: TokenType)

  /** The two character classes the scanner asks about. The program takes them
      from Java's Unicode tables (`Character.isLetter`, `Character.isWhitespace`);
      here they are left abstract and passed in. */
  datatype Classifier = Classifier(isLetter: Char16 -> bool, isWhitespace: Char16 -> bool)

  /** What the delimiter branches rely on: the parentheses are neither letters
      nor whitespace, as in Java's tables. */
  predicate ParensUnclassified(cls: Classifier) {
    !cls.isLetter(LeftParen) && !cls.isLetter(RightParen) &&
    !cls.isWhitespace(LeftParen) && !cls.isWhitespace(RightParen)
  }

  /** No code unit is both a letter and whitespace, as in Java's tables. */
  predicate Disjoint(cls: Classifier) {
    forall c: Char16 :: !(cls.isLetter(c) && cls.isWhitespace(c))
  }

  /** A code unit that no branch of the scanner claims: it is skipped. */
  predicate Dropped(cls: Classifier, c: Char16) {
    !cls.isLetter(c) && !cls.isWhitespace(c) && c != LeftParen && c != RightParen
  }

  /** The part of the text a token was scanned from, `start` inclusive and
      `end` exclusive. The program does not keep it; the specification does. */
  datatype Span = Span(kind: TokenType, start: nat, end: nat)

  /** The spans are inside `lo..hi`, non-empty, and in text order without overlap. */
  predicate Ordered(spans: seq<Span>, lo: nat, hi: nat) {
    (forall k :: 0 <= k < |spans| ==> lo <= spans[k].start < spans[k].end <= hi) &&
    (forall k :: 0 < k < |spans| ==> spans[k - 1].end <= spans[k].start)
  }

  /** The span is a run its kind allows and cannot be extended to the right:
      an identifier is letters up to a non-letter or the end, a whitespace
      token is whitespace (starting with a non-letter) up to a non-whitespace
      or the end, a delimiter is the one parenthesis that the letter and
      whitespace tests rejected. */
  predicate Classified(cls: Classifier, s: JavaString, span: Span) {
    span.start < span.end <= |s| &&
    match span.kind
    case Identifier =>
      (forall k :: span.start <= k < span.end ==> cls.isLetter(s[k])) &&
      (span.end == |s| || !cls.isLetter(s[span.end]))
    case Whitespace =>
      !cls.isLetter(s[span.start]) &&
      (forall k :: span.start <= k < span.end ==> cls.isWhitespace(s[k])) &&
      (span.end == |s| || !cls.isWhitespace(s[span.end]))
    case Open =>
      span.end == span.start + 1 && s[span.start] == LeftParen &&
      !cls.isLetter(s[span.start]) && !cls.isWhitespace(s[span.start])
    case Close =>
      span.end == span.start + 1 && s[span.start] == RightParen &&
      !cls.isLetter(s[span.start]) && !cls.isWhitespace(s[span.start])
  }

  /** Where a run of code units satisfying `p` that may begin at `i` ends:
      the first position at or after `i` that fails `p`, or the end of `s`. */
  function RunEnd(s: JavaString, i: nat, p: Char16 -> bool): (r: nat)
    requires i <= |s|
    ensures i <= r <= |s|
    ensures forall k :: i <= k < r ==> p(s[k])
    ensures r == |s| || !p(s[r])
    decreases |s| - i
  {
    if i < |s| && p(s[i]) then RunEnd(s, i + 1, p) else i
  }

  /** One turn of the scan at position `i`: where the cursor goes next and
      the span emitted on the way (none, or exactly one). The first code unit
      picks the branch (letter, whitespace, `(`, `)`, anything else); a letter
      or whitespace branch swallows the maximal run that follows, and the last
      branch moves one position and emits nothing. */
  function Step(cls: Classifier, s: JavaString, i: nat): (r: (nat, seq<Span>))
    requires i < |s|
    ensures i < r.0 <= |s|
    ensures |r.1| <= 1
    ensures r.1 == [] <==> Dropped(cls, s[i])
    ensures Dropped(cls, s[i]) ==> r.0 == i + 1
    ensures forall k :: 0 <= k < |r.1| ==> r.1[k].start == i && r.1[k].end == r.0 && Classified(cls, s, r.1[k])
  {
    var prefix := s[i];
    if cls.isLetter(prefix) then
      var next := RunEnd(s, i + 1, cls.isLetter);
      (next, [Span(Identifier, i, next)])
    else if cls.isWhitespace(prefix) then
      var next := RunEnd(s, i + 1, cls.isWhitespace);
      (next, [Span(Whitespace, i, next)])
    else if prefix == LeftParen then
      (i + 1, [Span(Open, i, i + 1)])
    else if prefix == RightParen then
      (i + 1, [Span(Close, i, i + 1)])
    else
      (i + 1, [])
  }

  /** The spans scanned from position `i` of `s` to its end, one `Step` at a time. */
  function Lex(cls: Classifier, s: JavaString, i: nat): (r: seq<Span>)
    requires i <= |s|
    ensures |r| <= |s| - i
    decreases |s| - i
  {
    if i == |s| then []
    else
      var (next, emitted) := Step(cls, s, i);
      emitted + Lex(cls, s, next)
  }

  lemma OrderedAppend(a: seq<Span>, b: seq<Span>, lo: nat, mid: nat, hi: nat)
    requires lo <= mid <= hi
    requires Ordered(a, lo, mid) && Ordered(b, mid, hi)
    ensures Ordered(a + b, lo, hi)
  {
    forall k | 0 <= k < |a + b|
      ensures lo <= (a + b)[k].start < (a + b)[k].end <= hi
    {
      if k >= |a| {
        assert (a + b)[k] == b[k - |a|];
      }
    }
    forall k | 0 < k < |a + b|
      ensures (a + b)[k - 1].end <= (a + b)[k].start
    {
      if k == |a| {
        assert (a + b)[k - 1] == a[|a| - 1] && (a + b)[k] == b[0];
      }
    }
  }

  /** The tokens the spans stand for, in the same order. */
  function Kinds(spans: seq<Span>): seq<Token> {
    seq(|spans|, k requires 0 <= k < |spans| => Token(spans[k].kind))
  }

  lemma KindsAppend(spans: seq<Span>, more: seq<Span>)
    ensures Kinds(spans + more) == Kinds(spans) + Kinds(more)
  {
  }

  lemma KindsSnoc(spans: seq<Span>, span: Span)
    ensures Kinds(spans + [span]) == Kinds(spans) + [Token(span.kind)]
  {
    KindsAppend(spans, [span]);
    assert Kinds([span]) == [Token(span.kind)];
  }

  /** The token list the scanner produces for `s`. */
  function Tokens(cls: Classifier, s: JavaString): (r: seq<Token>)
    ensures |r| <= |s|
  {
    Kinds(Lex(cls, s, 0))
  }

  /** A letter at `i` followed by letters up to `next`, where the letters
      stop: the turn emits one identifier over `i..next`. */
  lemma StepIdentifier(cls: Classifier, s: JavaString, i: nat, next: nat)
    requires i < next <= |s|
    requires cls.isLetter(s[i])
    requires RunEnd(s, next, cls.isLetter) == RunEnd(s, i + 1, cls.isLetter)
    requires next == |s| || !cls.isLetter(s[next])
    ensures Step(cls, s, i) == (next, [Span(Identifier, i, next)])
  {
  }

  /** A non-letter whitespace unit at `i` followed by whitespace up to `next`,
      where the whitespace stops: the turn emits one whitespace token. */
  lemma StepWhitespace(cls: Classifier, s: JavaString, i: nat, next: nat)
    requires i < next <= |s|
    requires !cls.isLetter(s[i]) && cls.isWhitespace(s[i])
    requires RunEnd(s, next, cls.isWhitespace) == RunEnd(s, i + 1, cls.isWhitespace)
    requires next == |s| || !cls.isWhitespace(s[next])
    ensures Step(cls, s, i) == (next, [Span(Whitespace, i, next)])
  {
  }

  /** A turn that emits `span` and moves to `next` extends the scanned prefix
      by that span, and the token list by its token. */
  lemma Emit(cls: Classifier, s: JavaString, done: seq<Span>, i: nat, next: nat, span: Span)
    requires i < |s|
    requires done + Lex(cls, s, i) == Lex(cls, s, 0)
    requires Step(cls, s, i) == (next, [span])
    ensures (done + [span]) + Lex(cls, s, next) == Lex(cls, s, 0)
    ensures Kinds(done + [span]) == Kinds(done) + [Token(span.kind)]
  {
    assert Lex(cls, s, i) == [span] + Lex(cls, s, next);
    assert (done + [span]) + Lex(cls, s, next) == done + ([span] + Lex(cls, s, next));
    KindsSnoc(done, span);
  }

  /** A turn over a code unit no branch claims emits nothing. */
  lemma Skip(cls: Classifier, s: JavaString, done: seq<Span>, i: nat)
    requires i < |s| && Dropped(cls, s[i])
    requires done + Lex(cls, s, i) == Lex(cls, s, 0)
    ensures done + Lex(cls, s, i + 1) == Lex(cls, s, 0)
  {
    assert Lex(cls, s, i) == Lex(cls, s, i + 1);
  }

  /** The scan as the program runs it: one cursor, an outer loop that takes one
      code unit per turn, two inner loops that extend letter and whitespace
      runs, and a growing list of tokens. */
  method Tokenize(cls: Classifier, source: SourceText) returns (result: seq<Token>)
    ensures result == Tokens(cls, source.content)
    ensures |result| <= |source.content|
    ensures source.content == [] ==> result == []
  {
    var content := source.content;
    var index := 0;
    result := [];
    ghost var spans: seq<Span> := [];
    while index < |content|
      invariant index <= |content|
      invariant spans + Lex(cls, content, index) == Lex(cls, content, 0)
      invariant result == Kinds(spans)
      decreases |content| - index
    {
      var start := index;
      var prefix := content[index];
      index := index + 1;
      if cls.isLetter(prefix) {
        while index < |content| && cls.isLetter(content[index])
          invariant start < index <= |content|
          invariant RunEnd(content, index, cls.isLetter) == RunEnd(content, start + 1, cls.isLetter)
          decreases |content| - index
        {
          index := index + 1;
        }
        StepIdentifier(cls, content, start, index);
        Emit(cls, content, spans, start, index, Span(Identifier, start, index));
        spans := spans + [Span(Identifier, start, index)];
        result := result + [Token(Identifier)];
      } else if cls.isWhitespace(prefix) {
        while index < |content| && cls.isWhitespace(content[index])
          invariant start < index <= |content|
          invariant RunEnd(content, index, cls.isWhitespace) == RunEnd(content, start + 1, cls.isWhitespace)
          decreases |content| - index
        {
          index := index + 1;
        }
        StepWhitespace(cls, content, start, index);
        Emit(cls, content, spans, start, index, Span(Whitespace, start, index));
        spans := spans + [Span(Whitespace, start, index)];
        result := result + [Token(Whitespace)];
      } else if prefix == LeftParen {
        Emit(cls, content, spans, start, index, Span(Open, start, index));
        spans := spans + [Span(Open, start, index)];
        result := result + [Token(Open)];
      } else if prefix == RightParen {
        Emit(cls, content, spans, start, index, Span(Close, start, index));
        spans := spans + [Span(Close, start, index)];
        result := result + [Token(Close)];
      } else {
        Skip(cls, content, spans, start);
      }
    }
    assert spans == Lex(cls, content, 0);
  }
}
