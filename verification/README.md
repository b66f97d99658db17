# JSON-to-XML translator: a Dafny model of its parser

`JsonToXmlTranslator` reads a JSON document and writes it out as XML. It does
this with a hand-written recursive-descent parser (class `Parser`). The parser
walks the input with an integer cursor and returns the XML text it built,
together with a list of error lines. That list holds at most one entry. This
project models the parser as pure functions over an immutable `string`. It
then proves what each production does, and what the whole translation
accepts and produces.

Modules, in dependency order:

- `Chars`: the character classes the parser consults, `Character.isWhitespace`
  and `Character.isDigit`.
- `Cursor`: the prefix test `startsWith`, `match` and `skipWhitespace`.
- `Decimal`: the decimal rendering of the cursor position in an error line.
- `Translator`: the parser itself. Each `parseX` method becomes a function
  from a start position to `Ok(text, pos)` or `Err(at, fault)`. The
  `do … while (match(","))` loops become the mutually recursive pairs
  `ObjectMembers`/`MembersNext` and `ArrayItems`/`ItemsNext`. `Parse` is one
  `parse()` call on a fresh parser: the returned text plus the error list.
  `HasErrors` is `hasErrors()`.
- `Lexemes`: what the string and number productions read.
- `Dispatch`: the control flow of the parser, stated one lookahead
  character and one loop round at a time.
- `JsonTree`: a reference definition with three parts:
  - JSON values as a tree;
  - `Serialize`, the compact JSON text of a tree;
  - `ToXml`, the XML the translation should give for a tree.

  `Wf` picks out the trees the parser can translate: no `null` anywhere,
  numbers that start with a digit and contain only digits and dots, and
  strings and keys without a `"`.
- `Completeness`: every well-formed tree, written compactly, translates to
  its `ToXml` with no error.
- `Layout`: JSON text together with its whitespace. A `Doc` places a run of
  whitespace at every point where the parser skips whitespace before a
  token; `Erase` forgets the whitespace and gives the tree. A member's key
  opens on any non-whitespace character, because the key reader steps over
  it unchecked (line 128). The first key of an object may not open on '}',
  which would close the object at line 90.
- `LayoutCompleteness`: every well-formed tree, written with any whitespace
  before any of its tokens, translates to its `ToXml` with no error. The
  compact text of `Completeness` is the layout with no whitespace at all
  (`LayoutCompleteness.CompactIsLayout`).
- `Soundness`: the converse of `LayoutCompleteness`. A document translated
  without error is the text of a well-formed layout, and the XML returned is
  that layout's tree's `ToXml`. So the documents accepted are exactly the
  texts of the well-formed layouts (`Soundness.Accepted`). The error-free
  outputs are exactly the `ToXml` texts of the well-formed trees
  (`Soundness.Outputs`).
- `Quirks`: whole-call outcomes for the corner cases the code has, as
  general lemmas and a few concrete inputs:
  - `null` does not move the cursor;
  - a leading `-` is never consumed;
  - the key reader skips one character without checking it;
  - the end check skips no whitespace;
  - reading past the end fails with the JVM's out-of-range exception.
- `Lines`: how `main` builds the document (line 20): every line is trimmed
  with `String.trim()`, and the results are concatenated by a left fold with
  no separator.

Error messages are the program's own Spanish strings (`Translator.Message`).
The out-of-range exception is thrown by the JVM, not by the program, so its
text is not fixed by the source. It is the parameter `outOfRange`.

A few behaviours of the code are easy to miss. The model keeps each of them:

- At end of input the dispatch calls `input.charAt(index)` (line 80) without
  a bounds check. The `StringIndexOutOfBoundsException` is caught at line 54
  and recorded with the JVM's message at position `|input|`. This applies to
  empty and whitespace-only documents too (`Quirks.BlankInput`).
- The dispatch sends a leading `-` to `parseNumber`, which never consumes it
  (`Lexemes.MinusNotConsumed`, `Quirks.MinusDocument`).
- When `parseElement` throws, `xml.append` (line 50) never runs, so a failed
  parse returns `""`. Only a failed end check returns the whole element's
  XML (`Translator.Parse`).
- The end check rejects leftover whitespace as well as other content
  (`Completeness.TrailingSpaceRejected`).
- `null` emits `<null/>` but leaves the cursor on its `n` (lines 78-79), so
  what encloses it fails:
  - In an array, wherever the loop meets a `null`, as the first element or
    after any ',', it stops on the `n`. The array fails there with
    "Se esperaba ']' al final del arreglo." (`Quirks.NullEndsItems`,
    `Quirks.NullAfterComma`, `Quirks.LoopOnNullFails`).
  - As a member's value, the member is read and the loop stops on the `n`.
    The object fails there with "Se esperaba '}' al final del objeto."
    (`Quirks.NullMemberValue`, `Quirks.ObjectLoopOnNullFails`,
    `Quirks.NullMemberObject`, and `{"a":null}` in `Quirks.NullMemberExample`).
  - As the whole document, the end check fails on the `n` (`Quirks.NullDocument`).

  No document translated without error holds a `null`. Such a document is
  the text of a well-formed layout, and the tree it spells is well-formed
  (`Soundness.NoNullAccepted`), while `Wf` excludes `JNull` at every depth.

## Model

Source paths are relative to the original repository.

| member | source | states |
|---|---|---|
| Cursor.Match | Tercera_Parte/JsonToXmlTranslator.java:163-169 | on success the cursor moves by exactly the literal's length and stays within the input; on failure it does not move |
| Cursor.MatchConsumesLiteral | Tercera_Parte/JsonToXmlTranslator.java:163-169 | what `match` consumes is exactly the literal; when it declines, the input does not hold the literal at the cursor |
| Cursor.SkipWhitespace | Tercera_Parte/JsonToXmlTranslator.java:171-175 | the cursor only moves forward, never past the end, and stops at the end or on a non-whitespace character |
| Cursor.SkipWhitespaceOverBlanks | Tercera_Parte/JsonToXmlTranslator.java:171-175 | every character skipped is whitespace |
| Cursor.SkipWhitespaceIdempotent | Tercera_Parte/JsonToXmlTranslator.java:171-175 | skipping twice lands where skipping once does |
| Cursor.SkipWhitespaceAtNonBlank | Tercera_Parte/JsonToXmlTranslator.java:171-175 | on a non-whitespace character, or at the end, skipping does not move |
| Chars.IsWhitespace | Tercera_Parte/JsonToXmlTranslator.java:172 | `Character.isWhitespace` on one character: the space, line and paragraph separators except the three no-break spaces, and the controls U+0009..U+000D and U+001C..U+001F |
| Chars.IsDigit | Tercera_Parte/JsonToXmlTranslator.java:80 | `Character.isDigit`, for the ASCII digits (see Left out) |
| Cursor.StartsWith | Tercera_Parte/JsonToXmlTranslator.java:74-78 | `input.startsWith(lit, index)`: false when the literal would run past the end |
| Cursor.StartsWithSlice | Tercera_Parte/JsonToXmlTranslator.java:74-78 | the prefix test holds exactly when the slice at the cursor with the literal's length exists and equals the literal |
| Decimal.NatToString | Tercera_Parte/JsonToXmlTranslator.java:55 | the position in an error line is written in decimal digits, with no leading zero, and reads back as the position |
| Decimal.NatToStringInjective | Tercera_Parte/JsonToXmlTranslator.java:55 | different positions give different texts |
| Decimal.DigitRunStopsAtColon | Tercera_Parte/JsonToXmlTranslator.java:55 | the decimal position in an entry is delimited by the ':' after it, so the digits are read back in full |
| Translator.Message | Tercera_Parte/JsonToXmlTranslator.java:52 | the exception text of each fault; the out-of-range text is the JVM's, a parameter |
| Translator.MessageNamesFault | Tercera_Parte/JsonToXmlTranslator.java:52 | each fault the program raises itself has a message of its own (lines 52, 83, 96, 104, 120, 133, 151) |
| Translator.ErrorLine | Tercera_Parte/JsonToXmlTranslator.java:55 | an error entry is "Error en posición ", the decimal position, ": " and the message |
| Translator.ErrorLineDecodes | Tercera_Parte/JsonToXmlTranslator.java:55 | two error entries are equal exactly when their positions and their messages are |
| Translator.HasErrors | Tercera_Parte/JsonToXmlTranslator.java:60-62 | `hasErrors()`: the error list is not empty; `Translator.Parse` states when that happens |
| Translator.Parse | Tercera_Parte/JsonToXmlTranslator.java:47-58 | at most one error line; no error exactly when the element succeeds and ends at the input's length; on an element failure the text is "" and the line carries that failure's position and message; when only the end check fails, the text is the element's XML and the line says "Contenido inesperado al final del archivo." at the element's end |
| Translator.ParseElement | Tercera_Parte/JsonToXmlTranslator.java:68-85 | the cursor only moves forward and stays within the input; a failure is reported at or after the start and at most one past the end |
| Translator.Scalar | Tercera_Parte/JsonToXmlTranslator.java:74-84 | the non-container branches keep the cursor between the lookahead and the end of input |
| Translator.ParseObject | Tercera_Parte/JsonToXmlTranslator.java:87-109 | a successful object ends strictly past where it was entered (at least the '}' is consumed) and within the input |
| Translator.ObjectMembers | Tercera_Parte/JsonToXmlTranslator.java:91-102 | a successful object loop ends strictly past where it was entered (the key's quotes are consumed) |
| Translator.MemberValue | Tercera_Parte/JsonToXmlTranslator.java:95-102 | after a key, success consumes at least the ':' |
| Translator.MembersNext | Tercera_Parte/JsonToXmlTranslator.java:101-102 | the loop test never moves the cursor back |
| Translator.ParseArray | Tercera_Parte/JsonToXmlTranslator.java:111-125 | a successful array ends strictly past where it was entered (at least the ']' is consumed) and within the input |
| Translator.ArrayItems | Tercera_Parte/JsonToXmlTranslator.java:115-118 | the array loop never moves the cursor back and stays within the input |
| Translator.ItemsNext | Tercera_Parte/JsonToXmlTranslator.java:117-118 | the loop test never moves the cursor back |
| Translator.QuoteEnd | Tercera_Parte/JsonToXmlTranslator.java:129-131 | the scan never moves back and stops on a '"' or at the end of input (`Lexemes.QuoteEndSkipsNoQuote` adds that it is the first) |
| Translator.ParseString | Tercera_Parte/JsonToXmlTranslator.java:127-138 | on success the cursor ends two characters past the text read; every failure is "Cadena sin cerrar.", reported at the input's length, or just past the skipped character when that is already at or beyond the end |
| Translator.ParseLiteral | Tercera_Parte/JsonToXmlTranslator.java:140-153 | `true`, `false` or `null` by prefix alone, advancing by its length; the literals are tried in that order; it fails with "Literal inválido." at the cursor exactly when none is there |
| Translator.NumberEnd | Tercera_Parte/JsonToXmlTranslator.java:157-159 | the scan never moves back and stops on a character that is neither a digit nor '.', or at the end (`Lexemes.NumberEndSkipsNumberChars` adds that it is the first) |
| Translator.ParseNumber | Tercera_Parte/JsonToXmlTranslator.java:155-161 | never fails; the text is as long as the cursor moved, which may be zero |
| Lexemes.ParseStringSpec | Tercera_Parte/JsonToXmlTranslator.java:127-138 | fails exactly when no '"' follows the skipped character, at the position stated above; on success returns exactly the characters between the skipped one and the next '"', with no quote inside, and stops one past that quote |
| Lexemes.QuoteEndSkipsNoQuote | Tercera_Parte/JsonToXmlTranslator.java:129-131 | the scan steps over no '"' |
| Lexemes.QuoteEndUnique | Tercera_Parte/JsonToXmlTranslator.java:129-131 | any index satisfying the loop's exit condition with no '"' before it is where the scan stops |
| Lexemes.ParseNumberSpec | Tercera_Parte/JsonToXmlTranslator.java:155-161 | the text is the maximal run of digits and '.' at the cursor, read verbatim (so `1.2.3` is one number) |
| Lexemes.NumberEndSkipsNumberChars | Tercera_Parte/JsonToXmlTranslator.java:157-159 | the scan steps over digits and '.' only |
| Lexemes.NumberEndUnique | Tercera_Parte/JsonToXmlTranslator.java:157-159 | any index satisfying the loop's exit condition with only digits and dots before it is where the scan stops |
| Lexemes.MinusNotConsumed | Tercera_Parte/JsonToXmlTranslator.java:155-161 | at a '-' the number text is empty and the cursor stays on the '-' |
| Dispatch.DispatchObject | Tercera_Parte/JsonToXmlTranslator.java:69-71 | after whitespace, a '{' selects the object production just past it |
| Dispatch.DispatchArray | Tercera_Parte/JsonToXmlTranslator.java:72-73 | after whitespace, a '[' selects the array production just past it |
| Dispatch.DispatchString | Tercera_Parte/JsonToXmlTranslator.java:74-75 | a '"' lookahead gives the string's text wrapped in `<string>` … `</string>`, failures unchanged |
| Dispatch.DispatchTrue | Tercera_Parte/JsonToXmlTranslator.java:76-77 | `true` gives `<boolean>true</boolean>` and advances 4 characters whatever follows |
| Dispatch.DispatchFalse | Tercera_Parte/JsonToXmlTranslator.java:76-77 | `false` gives `<boolean>false</boolean>` and advances 5 characters whatever follows |
| Dispatch.DispatchNull | Tercera_Parte/JsonToXmlTranslator.java:78-79 | `null` gives `<null/>` and leaves the cursor on the 'n' |
| Dispatch.DispatchNumber | Tercera_Parte/JsonToXmlTranslator.java:80-81 | a digit or '-' gives `<number>` + the digit-and-dot run at the lookahead + `</number>`, ending after the run |
| Dispatch.DispatchEnd | Tercera_Parte/JsonToXmlTranslator.java:80 | at the end of input the dispatch fails with the out-of-range fault at the input's length |
| Dispatch.DispatchInvalid | Tercera_Parte/JsonToXmlTranslator.java:82-83 | any other lookahead fails with "Elemento inválido." at the lookahead |
| Dispatch.ItemsNextComma | Tercera_Parte/JsonToXmlTranslator.java:118 | after an element, a ',' runs another round of the array loop, and this element's XML comes first |
| Dispatch.ItemsNextStop | Tercera_Parte/JsonToXmlTranslator.java:118 | anything but ',' ends the array loop where it stands |
| Dispatch.MembersNextComma | Tercera_Parte/JsonToXmlTranslator.java:102 | after a member, a ',' runs another round of the object loop, and this member's XML comes first |
| Dispatch.MembersNextStop | Tercera_Parte/JsonToXmlTranslator.java:102 | anything but ',' ends the object loop where it stands |
| Dispatch.MemberValueNoColon | Tercera_Parte/JsonToXmlTranslator.java:94-97 | a key not followed by ':' (after whitespace) fails with "Se esperaba ':' después de la clave." where the ':' was expected |
| Dispatch.MemberValueFails | Tercera_Parte/JsonToXmlTranslator.java:99 | a failing value makes the member fail in the same way |
| Dispatch.MemberValueOk | Tercera_Parte/JsonToXmlTranslator.java:95-102 | a member's XML is `<key>` + value + `</key>`, both tags using the key text verbatim, followed by the loop test after whitespace |
| Dispatch.ArrayBody | Tercera_Parte/JsonToXmlTranslator.java:113-121 | an array whose body does not start with ']' (after whitespace) runs the loop, wraps its text in `<array>` … `</array>` if a ']' follows it, and otherwise fails with "Se esperaba ']' al final del arreglo." there |
| Dispatch.ObjectBody | Tercera_Parte/JsonToXmlTranslator.java:89-105 | an object whose body does not start with '}' (after whitespace) runs the loop, wraps its text in `<object>` … `</object>` if a '}' follows it, and otherwise fails with "Se esperaba '}' al final del objeto." there |
| Dispatch.EmptyContainers | Tercera_Parte/JsonToXmlTranslator.java:87-125 | '[' or '{', then only whitespace, then the closing bracket gives `<array></array>` or `<object></object>` |
| Completeness.StringComplete | Tercera_Parte/JsonToXmlTranslator.java:127-138 | a quoted text without '"' inside is read back verbatim, ending past the closing quote |
| Completeness.NumberComplete | Tercera_Parte/JsonToXmlTranslator.java:155-161 | a digit-first run of digits and dots, followed by anything else, is read back verbatim |
| Completeness.ElementComplete | Tercera_Parte/JsonToXmlTranslator.java:68-85 | a well-formed tree's compact text, followed by anything that cannot extend a number, parses to the tree's XML and ends right after the text |
| Completeness.ArrayComplete | Tercera_Parte/JsonToXmlTranslator.java:111-125 | after the '[' of a compact array of well-formed items, the parser returns `<array>` + the items' XML + `</array>` and ends past the ']' |
| Completeness.ObjectComplete | Tercera_Parte/JsonToXmlTranslator.java:87-109 | after the '{' of a compact object of well-formed members, the parser returns `<object>` + the members' XML + `</object>` and ends past the '}' |
| Completeness.ItemsComplete | Tercera_Parte/JsonToXmlTranslator.java:115-118 | the array loop over comma-separated well-formed items returns their XML concatenated, stopping on the ']' |
| Completeness.MembersComplete | Tercera_Parte/JsonToXmlTranslator.java:91-102 | the object loop over comma-separated well-formed members returns their XML concatenated, stopping on the '}' |
| Completeness.TranslateSerialized | Tercera_Parte/JsonToXmlTranslator.java:47-58 | the compact text of any well-formed tree translates to the tree's XML with no error |
| Completeness.TrailingSpaceRejected | Tercera_Parte/JsonToXmlTranslator.java:51-52 | the same text followed by one space is rejected with "Contenido inesperado al final del archivo." at the space, and the element's XML is still returned |
| LayoutCompleteness.SkipOverBlank | Tercera_Parte/JsonToXmlTranslator.java:171-175 | skipping from the start of a whitespace run ends where skipping from its end does |
| LayoutCompleteness.DocComplete | Tercera_Parte/JsonToXmlTranslator.java:68-85 | a well-formed value in any layout, followed by anything that cannot extend a number, parses to its tree's XML and ends right after its last token |
| LayoutCompleteness.ArrayDocComplete | Tercera_Parte/JsonToXmlTranslator.java:111-125 | after the '[', whitespace, elements in any layout and ']' give `<array>` + the elements' XML + `</array>`, ending past the ']' |
| LayoutCompleteness.ObjectDocComplete | Tercera_Parte/JsonToXmlTranslator.java:87-109 | after the '{', whitespace, members in any layout and '}' give `<object>` + the members' XML + `</object>`, ending past the '}' |
| LayoutCompleteness.ItemsDocComplete | Tercera_Parte/JsonToXmlTranslator.java:115-118 | the array loop over elements in any layout returns their XML in order, stopping on the ']' |
| LayoutCompleteness.FieldsDocComplete | Tercera_Parte/JsonToXmlTranslator.java:91-102 | the object loop over members in any layout, with whitespace around keys and ':' and any non-whitespace character opening each key, returns their XML in order, stopping on the '}' |
| LayoutCompleteness.TranslateDoc | Tercera_Parte/JsonToXmlTranslator.java:47-58 | a whole document that spells a well-formed tree, with any whitespace before any token, translates to the tree's XML with an empty error list |
| LayoutCompleteness.DocWfErases | Tercera_Parte/JsonToXmlTranslator.java:47-58 | the tree a well-formed layout spells is well-formed, so `Soundness.Outputs` covers these translations |
| LayoutCompleteness.KeyComplete | Tercera_Parte/JsonToXmlTranslator.java:127-138 | a quote-free key after any character and before a '"' is read back verbatim, ending past the '"' |
| LayoutCompleteness.CompactIsLayout | Tercera_Parte/JsonToXmlTranslator.java:47-58 | the compact text of a well-formed tree is the well-formed layout with no whitespace |
| Soundness.ScalarSound | Tercera_Parte/JsonToXmlTranslator.java:74-84 | a successful scalar that does not leave the cursor on an 'n' or a '-' read exactly the compact text of a quote-free string, a boolean or a digit-first number from the cursor on, and returned that value's XML |
| Soundness.ElementSound | Tercera_Parte/JsonToXmlTranslator.java:68-85 | a successful element that does not leave the cursor on an 'n' or a '-' read exactly the text of a well-formed layout, from where it started to where it stopped, and returned the XML of the tree that layout spells |
| Soundness.ArraySound | Tercera_Parte/JsonToXmlTranslator.java:111-125 | a successful array, after its '[', read whitespace, elements in a well-formed layout and the ']', ending just past it, and returned `<array>` + their XML + `</array>` |
| Soundness.ItemsSound | Tercera_Parte/JsonToXmlTranslator.java:115-118 | a successful array loop that does not end on an 'n' or a '-' read one or more elements in a well-formed layout separated by ',', up to where it stopped, and returned their XML in order |
| Soundness.ObjectSound | Tercera_Parte/JsonToXmlTranslator.java:87-109 | a successful object, after its '{', read whitespace, members in a well-formed layout (the first key not opening on '}') and the '}', ending just past it, and returned `<object>` + their XML + `</object>` |
| Soundness.MembersSound | Tercera_Parte/JsonToXmlTranslator.java:91-102 | a successful object loop that does not end on an 'n' or a '-' read one or more members in a well-formed layout separated by ',', the first key opening on the first non-blank character, and returned their XML in order |
| Soundness.FieldSound | Tercera_Parte/JsonToXmlTranslator.java:92-102 | one round of the object loop read whitespace, the unchecked character, a quote-free key and its '"', whitespace, ':', a value in a well-formed layout and whitespace, and either goes round again after a ',' or ends there |
| Soundness.ParseSound | Tercera_Parte/JsonToXmlTranslator.java:47-58 | a document translated without error is, in full, the text of a well-formed layout, and the XML returned is that layout's tree's XML |
| Soundness.Accepted | Tercera_Parte/JsonToXmlTranslator.java:47-58 | a document is translated without error exactly when it is the text of a well-formed layout, and then the translation is that tree's XML with no error line |
| Soundness.NoNullAccepted | Tercera_Parte/JsonToXmlTranslator.java:47-79 | a document translated without error spells a well-formed tree, so it holds no `null` at any depth |
| Soundness.Outputs | Tercera_Parte/JsonToXmlTranslator.java:47-58 | the texts of error-free translations are exactly the XML of the well-formed trees |
| Quirks.SkipAllBlanks | Tercera_Parte/JsonToXmlTranslator.java:171-175 | over a run of whitespace up to the end, skipping reaches the end |
| Quirks.BlankInput | Tercera_Parte/JsonToXmlTranslator.java:47-85 | an empty or whitespace-only document gives "" and one out-of-range error at the input's length |
| Quirks.BlankFile | Tercera_Parte/JsonToXmlTranslator.java:20 | a file of lines holding only characters up to U+0020 becomes the empty document, which fails that way at position 0 |
| Quirks.NullDocument | Tercera_Parte/JsonToXmlTranslator.java:47-79 | a `null` document returns `<null/>` with a trailing-content error at the 'n' |
| Quirks.NullEndsItems | Tercera_Parte/JsonToXmlTranslator.java:115-118 | a round of the array loop that starts on `null` returns `<null/>` and ends the loop on the 'n' |
| Quirks.NullAfterComma | Tercera_Parte/JsonToXmlTranslator.java:117-118 | a `null` after any ',' of the array loop ends the loop on its 'n', after what was read before |
| Quirks.LoopOnNullFails | Tercera_Parte/JsonToXmlTranslator.java:113-120 | wherever the array loop stops on a `null`, the array fails with "Se esperaba ']' al final del arreglo." at the 'n' |
| Quirks.NullFirstItem | Tercera_Parte/JsonToXmlTranslator.java:111-120 | an array whose first element is `null` fails with "Se esperaba ']' al final del arreglo." at the 'n' |
| Quirks.NullInArrayDocument | Tercera_Parte/JsonToXmlTranslator.java:111-120 | a document `[null…` returns "" with that error |
| Quirks.MinusDocument | Tercera_Parte/JsonToXmlTranslator.java:47-81 | a document whose first non-blank character is '-' returns `<number></number>` with a trailing-content error at the '-' |
| Quirks.TrailingCommaFails | Tercera_Parte/JsonToXmlTranslator.java:115-118 | any ',' of the array loop with only whitespace before a ']' makes the loop fail with "Elemento inválido." at the ']' |
| Quirks.NullMemberValue | Tercera_Parte/JsonToXmlTranslator.java:95-102 | a member whose value is `null` gives `<key><null/></key>` and ends the object loop on the 'n' |
| Quirks.ObjectLoopOnNullFails | Tercera_Parte/JsonToXmlTranslator.java:89-105 | wherever the object loop stops on a `null`, the object fails with "Se esperaba '}' al final del objeto." at the 'n' |
| Quirks.NullMemberObject | Tercera_Parte/JsonToXmlTranslator.java:87-105 | an object whose first member's value is `null` fails with "Se esperaba '}' al final del objeto." at the 'n' |
| Quirks.NullMemberExample | Tercera_Parte/JsonToXmlTranslator.java:47-105 | `{"a":null}` returns "" with "Se esperaba '}' al final del objeto." at 5, the 'n' |
| Quirks.TrailingCommaExample | Tercera_Parte/JsonToXmlTranslator.java:111-125 | `[1,2,]` fails with "Elemento inválido." (thrown at line 83) at 5, the index of the ']' |
| Quirks.UnclosedObjectExample | Tercera_Parte/JsonToXmlTranslator.java:87-109 | `{"k": "v"` fails with "Se esperaba '}' al final del objeto." at 9, the input's length |
| Quirks.LoneBraceExample | Tercera_Parte/JsonToXmlTranslator.java:127-138 | `{` fails with "Cadena sin cerrar." at 2, one past the input's length |
| Quirks.NumberDocument | Tercera_Parte/JsonToXmlTranslator.java:155-161 | a digit followed by digits and dots is translated verbatim as one number with no error |
| Quirks.DottedNumberExample | Tercera_Parte/JsonToXmlTranslator.java:155-161 | `1.2.3` translates to `<number>1.2.3</number>` with no error |
| Quirks.UncheckedKeyQuoteExample | Tercera_Parte/JsonToXmlTranslator.java:128 | `{xk":1}` translates like `{"k":1}`: the character before the key is skipped unchecked |
| Lines.Trim | Tercera_Parte/JsonToXmlTranslator.java:20 | `trim` gives no longer text, which neither starts nor ends with a character up to U+0020 |
| Lines.TrimSplits | Tercera_Parte/JsonToXmlTranslator.java:20 | the line is a run of such characters, then the trimmed text, then another such run |
| Lines.TrimUnique | Tercera_Parte/JsonToXmlTranslator.java:20 | any such split whose middle neither starts nor ends with such a character is the one `trim` makes |
| Lines.TrimIdempotent | Tercera_Parte/JsonToXmlTranslator.java:20 | trimming twice is trimming once |
| Lines.JoinFrom | Tercera_Parte/JsonToXmlTranslator.java:20 | the fold `reduce("", (acc, line) -> acc + line.trim())` from an accumulator: the accumulator is kept as a prefix |
| Lines.JoinLines | Tercera_Parte/JsonToXmlTranslator.java:20 | the document text: the fold started from "" |
| Lines.JoinFromConcat | Tercera_Parte/JsonToXmlTranslator.java:20 | the fold from any accumulator appends the trimmed lines, in order, to it |
| Lines.JoinLinesConcat | Tercera_Parte/JsonToXmlTranslator.java:20 | the document text is the trimmed lines concatenated in order with nothing between them |
| Lines.JoinLinesAppend | Tercera_Parte/JsonToXmlTranslator.java:20 | joining two blocks of lines gives the two texts one after the other |
| Lines.BlankLinesJoinEmpty | Tercera_Parte/JsonToXmlTranslator.java:20 | lines of characters up to U+0020 only give the empty document |

## Left out

- `main` (lines 9-35): it checks the argument count, handles the files and
  the console, and catches `IOException`. This is I/O, so only the fold at
  line 20 is modelled. How `BufferedReader.lines()` splits a file into lines
  is not modelled either: the lines arrive as a sequence.
- `VALID_TOKENS` (lines 5-7): it is declared but never used.
- `getErrors()` and repeated `parse()` calls on one `Parser`. The cursor is
  never reset and errors accumulate. The model describes one call on a fresh
  parser, and the list it returns is a value, so there is no aliasing.
- `Character.isDigit` accepts every Unicode decimal digit. Here it is
  restricted to '0'-'9'. On input holding other decimal digits at a number's
  position, the model reports "Elemento inválido." or stops the number,
  where the program would go on.
- `Character.isWhitespace` follows Java's definition for characters of the
  Basic Multilingual Plane. Java strings are UTF-16 units, while Dafny
  characters are Unicode scalar values. For input outside the BMP, Java's
  positions in error lines count two units per such character, and the
  model's count one.
- The JVM's message for the out-of-range exception is a parameter.
- Output escaping: the program does none, so XML well-formedness of the
  output is not a property here.
- Stack depth and integer width: very deeply nested input can exhaust the
  Java stack (`StackOverflowError` is not caught at line 54). Input too long
  for an `int` index cannot occur in a Java `String`. The model has
  unbounded recursion and unbounded positions.
