# The `create` scanner, modelled in Dafny

`ideal/experiment/mini/create.java` holds a small lexical scanner. `tokenize`
takes a named source text and walks its content once with an index cursor.
It emits a flat list of tokens of four types:

- IDENTIFIER for each maximal run of letters;
- WHITESPACE for each maximal run of whitespace;
- OPEN for each `(`;
- CLOSE for each `)`.

Any other character moves the cursor by one and emits nothing.

This project models that scanner and proves what its output is.

- `Scanner.dfy` (module `Create`) holds the data model and the scanner:
  - `SourceText`, `TokenType` and `Token` are the source's records and enum.
  - `Char16` is a Java `char`, one UTF-16 code unit. `JavaString` is a sequence of them.
  - `Classifier` carries the two classifiers `fn_is_letter` and `fn_is_whitespace` as functions. They are passed in, because the program delegates them to Java's Unicode tables.
  - The specification is a function. `Step` is one turn of the outer loop; `Lex` repeats it and also records each token's span; `Tokens` keeps only the token types.
  - `Tokenize` is the scan as the program runs it: an outer `while` loop and two inner ones. It is proved to return `Tokens` of the content.
- `ScannerProperties.dfy` (module `CreateProperties`) proves what the output promises:
  - the spans are ordered, and identifier and whitespace runs are maximal;
  - exactly the unclassified characters are dropped;
  - there are as many OPEN/CLOSE tokens as `(`/`)` characters;
  - a text of one class gives one token;
  - the scan composes over concatenation.
- `ScannerExamples.dfy` (module `CreateExamples`) works out the scanner on `""`, `(())`, `a+b`, `abc def` and `foo(bar baz)`. It does so for any classifier that agrees with Java's tables on ASCII.

Facts about Java's character tables appear as predicates over a `Classifier`. They are required only by the lemmas that depend on them:

- `ParensUnclassified`: `(` and `)` are neither letters nor whitespace.
- `Disjoint`: no unit is both a letter and whitespace.
- `SurrogatesUnclassified`: no surrogate unit (0xD800-0xDFFF) is a letter or whitespace.
- `AgreesOnAscii`: the tables' values below 0x80.

The scanner itself requires nothing.

The code classifies UTF-16 code units, not code points. So a letter outside the
Basic Multilingual Plane reaches the scanner as two surrogate units. `Char16`
ranges over code units, so the model classifies them one at a time as the code
does. In Java's tables a surrogate unit is neither a letter nor whitespace.
Under that fact (`SurrogatesUnclassified`) the model proves that such a
character emits no token (`CreateProperties.SupplementaryDropped`).

## Model

| member | source | states |
|---|---|---|
| Create.RunEnd | ideal/experiment/mini/create.java:52-59 | An inner loop stops at the first unit after the cursor that fails the class test, or at the end. Every unit it passed is in the class. |
| Create.Step | ideal/experiment/mini/create.java:48-65 | One outer turn advances the cursor by at least one and stays within the text. It emits at most one token, and emits none exactly when the first unit is neither letter, whitespace, `(` nor `)`. Such a unit advances the cursor by exactly one. An emitted span starts at the old cursor, ends at the new one, and is `Classified`. |
| Create.Lex | ideal/experiment/mini/create.java:47-66 | The scan from cursor `i` emits at most as many tokens as there are units left. |
| Create.Tokens | ideal/experiment/mini/create.java:43-68 | The token list is never longer than the content. |
| Create.Tokenize | ideal/experiment/mini/create.java:43-68 | The loop version terminates: the outer cursor grows every turn and stays at most the length. It returns exactly `Tokens` of the content, so no more tokens than units, and none for empty content. |
| CreateProperties.LexOrdered | ideal/experiment/mini/create.java:47-58 | The token spans are non-empty and lie inside the text. They are in text order and never overlap. |
| CreateProperties.LexClassified | ideal/experiment/mini/create.java:51-64 | An IDENTIFIER span is all letters and is followed by a non-letter or the end. A WHITESPACE span starts with a non-letter, is all whitespace, and is followed by a non-whitespace unit or the end. OPEN and CLOSE spans are one `(` or `)` unit. |
| CreateProperties.RunsMaximal | ideal/experiment/mini/create.java:51-60 | With disjoint classes, identifier and whitespace runs are maximal on both sides: the unit before an IDENTIFIER is not a letter, and the unit before a WHITESPACE token is not whitespace. |
| CreateProperties.DroppedExactly | ideal/experiment/mini/create.java:50-65 | For every classifier, a unit lies inside some token's span if and only if it is a letter, whitespace, `(` or `)`. All other units are silently dropped. |
| CreateProperties.DelimitersAtomic | ideal/experiment/mini/create.java:61-64 | The number of OPEN tokens equals the number of `(` units, and the number of CLOSE tokens equals the number of `)` units. |
| CreateProperties.AllLetters | ideal/experiment/mini/create.java:51-55 | A non-empty all-letter text gives exactly one IDENTIFIER. |
| CreateProperties.AllWhitespace | ideal/experiment/mini/create.java:56-60 | When no unit is both a letter and whitespace, as in Java's tables, a non-empty all-whitespace text gives exactly one WHITESPACE. |
| CreateProperties.Concat | ideal/experiment/mini/create.java:47-66 | If the last unit of `u` and the first unit of `v` are not both letters and not both whitespace, the tokens of `u + v` are the tokens of `u` followed by the tokens of `v`. |
| CreateProperties.SplitAt | ideal/experiment/mini/create.java:61-65 | A unit `c` that is neither letter nor whitespace splits the text. The tokens of `u + [c] + v` are the tokens of `u`, then OPEN for `(`, CLOSE for `)` or nothing otherwise, then the tokens of `v`. |
| CreateProperties.SupplementaryDropped | ideal/experiment/mini/create.java:49-65 | If surrogate units are neither letters nor whitespace, a surrogate pair between `u` and `v` emits no token. The tokens of `u + [high, low] + v` are the tokens of `u` followed by the tokens of `v`. |
| CreateExamples.AsciiParens | ideal/experiment/mini/create.java:70-76 | A classifier that answers as `Character.isLetter` and `Character.isWhitespace` do on ASCII puts `(` and `)` in neither class. |
| CreateExamples.EmptyText | ideal/experiment/mini/create.java:46-47 | Empty content gives no tokens. |
| CreateExamples.NestedParens | ideal/experiment/mini/create.java:61-64 | `(())` gives OPEN, OPEN, CLOSE, CLOSE. |
| CreateExamples.DroppedPlus | ideal/experiment/mini/create.java:50-65 | `a+b` gives IDENTIFIER, IDENTIFIER. The `+` emits nothing, but it ends the letter run. |
| CreateExamples.TwoWords | ideal/experiment/mini/create.java:51-60 | `abc def` gives IDENTIFIER, WHITESPACE, IDENTIFIER. |
| CreateExamples.MixedBoundaries | ideal/experiment/mini/create.java:47-66 | `foo(bar baz)` gives IDENTIFIER, OPEN, IDENTIFIER, WHITESPACE, IDENTIFIER, CLOSE. |
| CreateExamples.TokenizeTwice | ideal/experiment/mini/create.java:43-68 | Scanning the same source twice gives identical token lists. |

## Left out

- `main` and `read_file` (create.java:78-99) are left out. They read a file as UTF-8, print the token types and exit with status 1 when the file cannot be read. All of this is I/O with no logic of its own.
- The concrete Unicode tables behind `Character.isLetter` and `Character.isWhitespace` are left out, because they are foreign code. The model keeps the classifier abstract. It constrains the classifier only through `ParensUnclassified`, `Disjoint`, `SurrogatesUnclassified` and `AgreesOnAscii`, and only where a lemma needs them.
- Non-modification of the source needs no lemma. `Create.Tokenize` takes the source by value and modifies nothing. `SourceText` is an immutable datatype, so the source cannot change. The `ArrayList` that the Java code appends to is a local sequence here.
- `ideal/development/tools/java_generator_target.java` is not part of this model. It only forwards to a code-generation framework that is not available.
- `CreateProperties.RunsMaximal`: left-maximality is proved only for classifiers whose two classes are disjoint. Without that, a unit that is both a letter and whitespace can extend a whitespace run. The letter that follows is then scanned as an identifier that is not maximal on its left.
- `CreateProperties.AllWhitespace`: this requires `Disjoint`, that no unit is both a letter and whitespace. A unit in both classes would start an identifier instead. Java's tables have no such unit.
