# ApplyJournal text pipeline, in Dafny

This project models the text pipeline of CubeClicker's ApplyJournal tool.

- **Data files.** A data file holds `name = value` pairs and `name = { ... }` structs, one pair per line.
- **Journal.** The journal holds checksummed lines of `file.attribute = value` updates meant for those files.

The model covers six parts:

- **Lexer and quoting (`StringUtils`, with the Qt string operations in `QtText`).** `NextTerm` takes one term off a line. `UnquoteTerm` decodes a quoted or escaped value. `QuoteTerm` and `MustQuote` produce the quoted form. Each method follows the source loop and is proved equal to a specification function (`Lex`, `Unquote`, `Quote`). Lemmas then state what those functions mean.
- **String interner (`Deduplication`).** A hash-keyed table of strings. `qHash` is a function-valued field about which nothing is assumed, so collisions are possible.
- **Document tree (`Hierarchy`).**
  - `DataValue` is a datatype: INVALID, BASIC (a string hash) or STRUCT (a reference to a node).
  - `DataHierarchy` is a class whose `children` map is updated in place by `Set`.
  - The order in which a `QMap` hands out its keys is `Ordering.SortedHashes` / `Ordering.SortedStrings`.
- **Reader (`Reading`).** The three-state machine of `DataReader::ParseLine` runs over the terms of each line, keeping a stack of open structs.
  - `Read` is the loop over the lines of a file.
  - The specification function `LineSpec` says what one line does.
  - `ReadLines` and `Accepts` say whether a file is accepted.
  - `BuildLines` and `Document` say what its lines store: the content of each struct, as a value, on a stack of open frames. `Read` is proved to return a tree that holds exactly that document.
  - `InternLines` says what the lines file in the string interner, and `Read` is proved to leave the interner holding exactly that.
  - A ghost ranking of the nodes proves that the tree returned by `Read` has no cycle.
- **Writer and registry (`Writing`, `Tracking`).**
  - The writer appends to a string that stands for the output stream. What it writes is the ghost function `Render`.
  - Lemmas show that each line it writes for a plain name and a plain value reads back through the reader without error and stores that name's and that value's hashes.
  - The registry maps file ids to file information, inserting only when an id is absent.
- **Journal (`Journal`).** The line checksum check, the `path = value` scan into the pending map, the path check against the registry, and the `Process` loop over the journal's lines.

The model keeps the code's behaviour as written, including several quirks:

- A dotted journal path is lexed as VALUE_ONLY and so rejects its line (`Journal.DottedPathRejected`).
- Journal values are cached with their quotes (`Journal.QuotedValueRaw`).
- A stored checksum above 7FFF is refused, because it is parsed as a signed 16-bit number (`Journal.JournalParser.SignedLine`).
- `ApplyUpdates` and `ExistingStructAttribute` are stubs, so STRUCT_REDEFINITION never occurs (`Journal.JournalParser.KeyError`).
- When a term ends inside quotes, `UnquoteTerm` reads the string's terminating NUL, then empties its destination (`StringUtils.UnquoteTerm`).
- The writer writes values without quoting them (`Writing.DataWriter.Entry`), so a value holding `#` does not read back (`StringUtils.QuoteLeavesStops`).

## Model

| member | source | states |
|---|---|---|
| QtText.Left | common/StringUtils.cpp:114 | the first n characters, or the whole string when n exceeds its length |
| QtText.DropFront | common/StringUtils.cpp:115 | the string without its first n characters, or empty when n exceeds its length |
| QtText.TrimStart | common/StringUtils.cpp:20 | the result is a suffix no longer than the input that does not start with white space |
| QtText.TrimEnd | common/StringUtils.cpp:20 | the result is a prefix no longer than the input that does not end with white space |
| QtText.Trim | common/StringUtils.cpp:20 | the trimmed string neither starts nor ends with white space |
| QtText.TrimStartSuffix | common/StringUtils.cpp:20 | trimming the front keeps a suffix of the string |
| QtText.TrimEndPrefix | common/StringUtils.cpp:20 | trimming the end keeps a prefix of the string |
| QtText.TrimStartBlank | common/StringUtils.cpp:20 | every character dropped from the front is white space |
| QtText.TrimEndBlank | common/StringUtils.cpp:20 | every character dropped from the end is white space |
| QtText.TrimEmptyIffBlank | common/StringUtils.cpp:20-24 | a line trims to nothing exactly when it is all white space |
| QtText.TrimTwice | common/StringUtils.cpp:20 | trimming is idempotent |
| QtText.TrimmedAlready | common/StringUtils.cpp:20 | a string without white space at either end is its own trim |
| QtText.TrimPadded | common/StringUtils.cpp:20 | white space added around a trimmed string is removed again |
| QtText.TrimStartPadded | common/StringUtils.cpp:20 | white space before a string is removed by trimming the front |
| QtText.TrimEndPadded | common/StringUtils.cpp:20 | white space after a string is removed by trimming the end |
| QtText.ToLower | ApplyJournal/JournalParser.cpp:221 | same length, each character lower-cased |
| QtText.IndexOf | ApplyJournal/JournalParser.cpp:240 | the first occurrence of the separator, or the length when it does not occur |
| QtText.Split | ApplyJournal/JournalParser.cpp:240 | splitting always yields at least one part |
| QtText.SplitParts | ApplyJournal/JournalParser.cpp:240-242 | there are two or more parts exactly when the separator occurs; the first part is the text before it |
| QtText.FourHexDigits | ApplyJournal/JournalParser.cpp:185-189 | four hex digits are accepted by the signed 16-bit parse exactly when their value is at most 7FFF |
| QtText.HexForms | ApplyJournal/JournalParser.cpp:187 | hex digits are accepted exactly when their value is at most 7FFF, and so are the same digits after `0x` or with white space before or after them |
| QtText.HexValueDigits | ApplyJournal/JournalParser.cpp:187 | a string with a hex value is made only of hex digits |
| QtText.StrLessIrreflexive | ApplyJournal/DataFileTracker.cpp:60-66 | the QString key order is irreflexive |
| QtText.StrLessTransitive | ApplyJournal/DataFileTracker.cpp:60-66 | the QString key order is transitive |
| QtText.StrLessTotal | ApplyJournal/DataFileTracker.cpp:60-66 | any two distinct keys are ordered one way or the other |
| QtText.StrLessAsymmetric | ApplyJournal/DataFileTracker.cpp:60-66 | the QString key order is asymmetric |
| Ordering.MinHash | ApplyJournal/DataHierarchy.cpp:151-158 | a non-empty key set has a least key, which is in the set |
| Ordering.HashMinExists | ApplyJournal/DataHierarchy.cpp:151-158 | a non-empty set of hashes has a least element |
| Ordering.HashMin | ApplyJournal/DataHierarchy.cpp:151-158 | a least element of a non-empty set of hashes is found |
| Ordering.SortedHashesSpec | ApplyJournal/DataHierarchy.cpp:146-161 | the iteration order of a uint-keyed map lists each key once, in strictly ascending order |
| Ordering.SortedHashesStep | ApplyJournal/DataHierarchy.cpp:153-158 | iteration yields the least key first, then the rest in order |
| Ordering.MinString | ApplyJournal/JournalParser.cpp:236-238 | a non-empty set of strings has a least element in QString order |
| Ordering.StringMinExists | ApplyJournal/JournalParser.cpp:236-238 | a non-empty set of strings has a least element in QString order |
| Ordering.MinStringUnique | ApplyJournal/JournalParser.cpp:236-238 | the least string of a set is unique |
| Ordering.SortedStrings | ApplyJournal/DataFileTracker.cpp:60-66 | every listed id is a key of the map |
| Ordering.SortedStringsSpec | ApplyJournal/DataFileTracker.cpp:60-66 | the iteration order of a string-keyed map lists each key once, in strictly ascending order |
| Ordering.SortedStringsStep | ApplyJournal/JournalParser.cpp:236-272 | iteration yields the least key first, then the rest in order |
| StringUtils.NextTerm | common/StringUtils.cpp:14-118 | the term kind, the term text and the remaining line are exactly what the lexer specification `Lex` gives for the input line |
| StringUtils.ScanWord | common/StringUtils.cpp:49-101 | the word runs to its first stop character outside quotes, or one past the end of the line when there is none, and is VALUE_ONLY exactly when a marker was seen outside quotes before that point |
| StringUtils.ScanStep | common/StringUtils.cpp:53-100 | one character advances the quote state, the VALUE_ONLY flag and the search for the word's end as the loop does |
| StringUtils.FirstStop | common/StringUtils.cpp:73-77 | the end of a word lies between the start and the end of the line |
| StringUtils.FirstStopSpec | common/StringUtils.cpp:53-101 | no position before the word's end is a stop character outside quotes, and the end itself is one when it is inside the line |
| StringUtils.FlaggedSpec | common/StringUtils.cpp:84-87 | a word is flagged exactly when some position before its end holds a `\` or `.` outside quotes |
| StringUtils.LexShrinks | common/StringUtils.cpp:24-115 | a non-blank line gives a non-empty term and a strictly shorter remainder; end of line gives an empty term and an empty remainder |
| StringUtils.LexBlank | common/StringUtils.cpp:16-24 | END_OF_LINE comes exactly from an empty or all-white-space line, with an empty term and an empty remainder |
| StringUtils.LexCovers | common/StringUtils.cpp:114-115 | the term followed by the remaining line is the trimmed input: nothing is lost or added |
| StringUtils.LexPunctuation | common/StringUtils.cpp:26-46 | `{`, `}` and `=` are one-character terms of their kinds; `#` is a comment taking the rest of the line |
| StringUtils.LexWord | common/StringUtils.cpp:53-110 | a word is a non-empty prefix of the trimmed line with no stop outside quotes, ends at the first one, and is VALUE_ONLY exactly when a marker occurs outside quotes |
| StringUtils.QuotedNeedsQuote | common/StringUtils.cpp:55-62 | the scanner is inside quotes only after passing a quote character |
| StringUtils.AttribMarkersAreQuoted | common/StringUtils.cpp:84-91 | a `\` or `.` in an ATTRIB_OR_VALUE word is preceded by a quote, so it sits inside quotes |
| StringUtils.OutsideRun | common/StringUtils.cpp:73-94 | plain characters outside quotes neither end a word nor flag it |
| StringUtils.DotMakesValueOnly | common/StringUtils.cpp:84-87 | a `.` after plain characters at the start of the line makes the word VALUE_ONLY |
| StringUtils.EscapedRun | common/StringUtils.cpp:55-69 | inside quotes, an escaped string does not close the quotes, end the word or flag it |
| StringUtils.EscapedCharRun | common/StringUtils.cpp:55-69 | inside quotes, one escaped character, `\"` included, keeps the scanner inside quotes |
| StringUtils.LexQuoted | common/StringUtils.cpp:53-110 | a quoted, escaped term followed by a stop or by nothing is read as a single ATTRIB_OR_VALUE word |
| StringUtils.LexPlain | common/StringUtils.cpp:73-110 | plain characters followed by a stop or by nothing are read as one ATTRIB_OR_VALUE word |
| StringUtils.LeadingSpace | common/StringUtils.cpp:20 | a space in front of a term does not change what is read |
| StringUtils.LexOfTrim | common/StringUtils.cpp:20 | lines with the same trim are lexed alike |
| StringUtils.QuoteLeavesStops | common/StringUtils.cpp:241-255 | `C#` is not quoted on demand, and it reads back as the word `C` followed by a comment |
| StringUtils.UnquoteTerm | common/StringUtils.cpp:120-204 | the error code and the destination are those of the decoding specification `Unquote` |
| StringUtils.QuotedStep | common/StringUtils.cpp:135-167 | one character inside quotes is decoded as the specification says, and the end of the term reports MISSING_QUOTE |
| StringUtils.PlainStep | common/StringUtils.cpp:168-188 | one character outside quotes is decoded as the specification says |
| StringUtils.UnquoteCopies | common/StringUtils.cpp:163-166 | ordinary characters are copied to the destination unchanged |
| StringUtils.UnquoteStopsAtSpace | common/StringUtils.cpp:170-174 | decoding stops with VALUE_OK at the first unquoted white space or at the end |
| StringUtils.UnquoteUnquotedEscape | common/StringUtils.cpp:179-183 | an unquoted `\` gives VALUE_UNQUOTED_ESCAPE and keeps what was decoded before it |
| StringUtils.UnquoteMissingQuote | common/StringUtils.cpp:137-143 | a term ending inside quotes gives VALUE_MISSING_QUOTE with an empty destination |
| StringUtils.UnquoteUnfinishedEscape | common/StringUtils.cpp:148-161 | a `\` at the end inside quotes gives VALUE_UNFINISHED_ESCAPE with an empty destination |
| StringUtils.UnquoteEscapedChar | common/StringUtils.cpp:148-155 | inside quotes, an escaped character decodes to that character |
| StringUtils.UnquoteEscaped | common/StringUtils.cpp:148-166 | inside quotes, an escaped string decodes to the original string |
| StringUtils.UnquoteQuote | common/StringUtils.cpp:206-239 | decoding the quoted form of any string, whether quoting is forced or not, gives the string back with VALUE_OK |
| StringUtils.QuoteTerm | common/StringUtils.cpp:206-239 | the result is `Quote`: the term unchanged unless quoting is forced or `MustQuote` holds, otherwise in quotes with `"` and `\` escaped |
| StringUtils.QuoteStep | common/StringUtils.cpp:214-228 | each character appended keeps the output equal to a quote plus the escaped prefix |
| StringUtils.EscapeSnoc | common/StringUtils.cpp:214-228 | escaping one more character appends that character's escape |
| Deduplication.StringDeduplicator.constructor | common/StringDeduplicator.cpp:20-22 | the table starts empty |
| Deduplication.StringDeduplicator.Retrieve | common/StringDeduplicator.cpp:63-76 | the string stored under the hash, or the empty string when none is stored |
| Deduplication.StringDeduplicator.Total | common/StringDeduplicator.cpp:78-85 | the number of distinct hashes stored |
| Deduplication.StringDeduplicator.Find | common/StringDeduplicator.cpp:38-50 | the string's hash when something is stored under it, otherwise 0; the table is not changed |
| Deduplication.StringDeduplicator.Store | common/StringDeduplicator.cpp:52-61 | returns the hash; the entry under it becomes the string and no other entry changes; Total grows exactly when the hash was new; storing the same string again changes nothing |
| Hierarchy.BasicValue | ApplyJournal/DataHierarchy.cpp:49-59 | the hash of a BASIC value, 0 for any other |
| Hierarchy.BasicString | ApplyJournal/DataHierarchy.cpp:61-71 | the interned string of a BASIC value, empty for any other |
| Hierarchy.StructValue | ApplyJournal/DataHierarchy.cpp:73-83 | the node of a STRUCT value, null for any other |
| Hierarchy.DataHierarchy.constructor | ApplyJournal/DataHierarchy.cpp:85-87 | a new node has no attributes |
| Hierarchy.DataHierarchy.Children | ApplyJournal/DataHierarchy.h:58 | the number of attributes |
| Hierarchy.DataHierarchy.Contains | ApplyJournal/DataHierarchy.cpp:114-126 | true exactly when the hash is present |
| Hierarchy.DataHierarchy.ContainsName | ApplyJournal/DataHierarchy.cpp:109-112 | true exactly when the name's hash is present |
| Hierarchy.DataHierarchy.Value | ApplyJournal/DataHierarchy.cpp:133-144 | the stored value, or INVALID for an absent hash |
| Hierarchy.DataHierarchy.ValueOf | ApplyJournal/DataHierarchy.cpp:128-131 | the value under the name's hash, or INVALID |
| Hierarchy.DataHierarchy.AllAttributes | ApplyJournal/DataHierarchy.cpp:146-161 | every key once, in ascending order, and their count |
| Hierarchy.DataHierarchy.Set | ApplyJournal/DataHierarchy.cpp:197-213 | true exactly when the key was absent; only that key's entry changes and now holds the value; Children grows by one exactly when true |
| Hierarchy.DataHierarchy.SetBasicId | ApplyJournal/DataHierarchy.cpp:169-175 | the value is interned and stored as BASIC, so that it is what the entry reads back as |
| Hierarchy.DataHierarchy.SetBasic | ApplyJournal/DataHierarchy.cpp:163-167 | name and value are interned; the name-keyed Contains and Value then find the value |
| Hierarchy.DataHierarchy.SetStructId | ApplyJournal/DataHierarchy.cpp:190-195 | the node is stored as STRUCT under the hash, and the result tells whether the hash was new |
| Hierarchy.DataHierarchy.SetStruct | ApplyJournal/DataHierarchy.cpp:177-188 | a null node returns false and changes nothing; otherwise the name is interned and the node stored under it |
| Hierarchy.ClimbsGrow | ApplyJournal/DataReader.cpp:177-179 | adding nodes and keeping the old nodes' ranks keeps every edge pointing to a higher rank |
| Hierarchy.ClimbsSet | ApplyJournal/DataReader.cpp:163-178 | setting a value whose node has a higher rank keeps every edge pointing to a higher rank |
| Hierarchy.RankedAcyclic | ApplyJournal/DataReader.cpp:172-182 | when every edge points to a higher rank, the tree below a node has no cycle |
| Tracking.DataFileTracker.constructor | ApplyJournal/DataFileTracker.cpp:16-18 | the registry starts empty |
| Tracking.DataFileTracker.Add | ApplyJournal/DataFileTracker.cpp:24-40 | true exactly when the id was absent, and the file, tree and load time are then recorded; otherwise nothing changes; afterwards Hierarchy of the id is the tree |
| Tracking.DataFileTracker.Hierarchy | ApplyJournal/DataFileTracker.cpp:42-54 | the tree registered under exactly this id, or null for an unknown id |
| Tracking.DataFileTracker.Files | ApplyJournal/DataFileTracker.cpp:56-67 | a fresh list of the registered entries, in ascending id order |
| Tracking.Listing | ApplyJournal/DataFileTracker.cpp:62-66 | one entry per id, each the file registered under it |
| Tracking.OrderStep | ApplyJournal/DataFileTracker.cpp:62-66 | taking the least remaining id extends the listed prefix of the ordered ids |
| Tracking.ListingNext | ApplyJournal/DataFileTracker.cpp:64 | listing one more id appends its entry |
| Tracking.FilesListing | ApplyJournal/DataFileTracker.cpp:56-67 | the list holds each registered id once, in strictly ascending order, with its own entry |
| Tracking.AddedIsListed | ApplyJournal/DataFileTracker.cpp:24-40 | a file that Add registers appears in the list that Files gives |
| Reading.StepOf | ApplyJournal/DataReader.cpp:96-195 | end of line always stops the machine, and the stack never drops below one entry |
| Reading.RunFrom | ApplyJournal/DataReader.cpp:94-201 | the depth stays at least one, and a value already set on the root stays set |
| Reading.RunText | ApplyJournal/DataReader.cpp:197-200 | the depth stays at least one, and a value already set on the root stays set |
| Reading.TermStep | ApplyJournal/DataReader.cpp:94-200 | a stopping term decides the line's error code, with depth unchanged, and stores nothing; otherwise the next term is taken off a strictly shorter rest, and what the line comes to and stores is what it does from there, after the term's own store and with the attribute name remembered |
| Reading.InternOf | ApplyJournal/DataHierarchy.cpp:163-175 | a value Set files the name and then the unquoted value under their qHashes, `{` files the name, any other term files nothing; what was filed stays filed, and a table whose strings sit under their own hash stays so |
| Reading.InternFrom | ApplyJournal/DataReader.cpp:94-200 | what the rest of a line files in the interner only adds keys, and keeps every string under its own hash |
| Reading.InternText | ApplyJournal/DataReader.cpp:94-200 | the same from what is left of a line |
| Reading.InternLines | ApplyJournal/DataReader.cpp:46-55 | what the lines of a file store in the interner, up to the first erring line, only adds keys and keeps every string under its own hash |
| Reading.InternStep | ApplyJournal/DataReader.cpp:94-200 | a stopping term files nothing; otherwise the line files what it does from the next term on, after the term's own store |
| Reading.InternTurn | ApplyJournal/DataReader.cpp:94-200 | after one term the parse stands where the interner's spec says, with the switch's error, state and depth and the name it remembers |
| Reading.InternLinesStep | ApplyJournal/DataReader.cpp:46-55 | reading the lines from i stores in the interner what line i stores first, and goes on only if that line gives no error |
| Reading.ValueStep | ApplyJournal/DataReader.cpp:154-187 | in STATE_VALUE_OR_OPEN the machine goes on exactly for `{` or a value that unquotes cleanly, back in STATE_CLOSE_OR_ATTRIB, one level deeper after `{`; otherwise ERROR_UNFINISHED_VALUE for a bad value and ERROR_MISSING_VALUE for anything else |
| Reading.StoreOf | ApplyJournal/DataReader.cpp:99-182 | the stack of open structs a term leaves is as deep as the context stack StepOf says |
| Reading.StoreRoot | ApplyJournal/DataReader.cpp:99-182 | each open struct stays filed in the one below it, and the root gains an attribute exactly when StepOf says a value or `{` was set on it |
| Reading.BuildFromDepth | ApplyJournal/DataReader.cpp:94-201 | what the rest of a line stores leaves as many open structs as the machine leaves contexts, and the root has an attribute exactly when the machine set one |
| Reading.BuildTextDepth | ApplyJournal/DataReader.cpp:94-201 | the same, from the start of what is left of the line |
| Reading.BuildLinesDepth | ApplyJournal/DataReader.cpp:46-55 | what the lines of a file store leaves as many open structs as Read's loop leaves contexts, and the root has an attribute exactly when the loop set one |
| Reading.FirstPending | ApplyJournal/DataReader.cpp:86-90 | the line is trimmed and its first term taken in STATE_CLOSE_OR_ATTRIB |
| Reading.ReadLines | ApplyJournal/DataReader.cpp:46-55 | reading the lines never leaves the stack empty |
| Reading.DataReader.constructor | ApplyJournal/DataReader.cpp:21-23 | the stack starts empty |
| Reading.DataReader.Read | ApplyJournal/DataReader.cpp:29-79 | a tree is returned exactly when the file opens, no line errs, the root has an attribute and every `{` is closed; the tree is fresh, has no cycle, the stack is left empty, and the tree holds exactly the document the lines store (`Document`): every key, every BASIC value's string hash, and every nested struct's content; the string interner then holds what `InternLines` says the lines file in it (unchanged when the file does not open) |
| Reading.DataReader.Finish | ApplyJournal/DataReader.cpp:65-68 | the root is popped off a stack that holds only it, and heads a finite tree holding what the bottom frame stores |
| Reading.DataReader.ReadAll | ApplyJournal/DataReader.cpp:46-55 | error and depth match ReadLines, what the stack holds matches BuildLines, what the interner holds matches InternLines, and the root stays at the bottom of the stack |
| Reading.DataReader.ReadNext | ApplyJournal/DataReader.cpp:46-54 | one turn of the loop reads the next line; what is left of ReadLines, BuildLines and InternLines moves past it |
| Reading.DataReader.ReadLine | ApplyJournal/DataReader.cpp:48-54 | a line is parsed as LineSpec says and stores what LineBuild and LineIntern say; an empty read changes nothing |
| Reading.DataReader.ParseLine | ApplyJournal/DataReader.cpp:81-204 | error code and new depth are those of LineSpec, the open structs hold what LineBuild says the line stores on them, and the interner what LineIntern says the line files in it |
| Reading.DataReader.Turn | ApplyJournal/DataReader.cpp:94-200 | one turn of the loop keeps what the line comes to and what it stores, on the open structs and in the interner, and shrinks the line when it goes on |
| Reading.DataReader.TakeTerm | ApplyJournal/DataReader.cpp:96-195 | the switch stops, moves state and changes depth exactly as StepOf says, remembers the name as NameOf says, stores on the open structs what StoreOf says and in the interner what InternOf says |
| Reading.DataReader.TakeName | ApplyJournal/DataReader.cpp:98-137 | `}` pops only above the root, otherwise ERROR_CONTEXT_UNDERFLOW; a name is remembered; `{` or `=` give ERROR_MISSING_ATTRIBUTE, VALUE_ONLY gives ERROR_MALFORMED_ATTRIBUTE, and a comment or the end of the line ends it cleanly |
| Reading.DataReader.TakeValue | ApplyJournal/DataReader.cpp:154-189 | a value that unquotes cleanly is Set on the current context under the attribute's hash as BASIC; `{` stores and pushes a fresh empty node; an unquoting error gives ERROR_UNFINISHED_VALUE and anything else ERROR_MISSING_VALUE, and then nothing changes; no other node changes; the interner gains what InternOf says |
| Reading.DataReader.TakeText | ApplyJournal/DataReader.cpp:155-171 | the term is unquoted; on success the decoded value is Set on the current context and the name and value are filed in the interner, otherwise ERROR_UNFINISHED_VALUE and nothing is stored |
| Reading.DataReader.TakeOpen | ApplyJournal/DataReader.cpp:172-182 | a fresh empty node is Set under the attribute on the current context and becomes the current one, one level deeper; the name is filed in the interner |
| Reading.DataReader.SetValue | ApplyJournal/DataReader.cpp:158-164 | the decoded value is stored on the top context under the attribute, and only that entry changes; the interner files the name and then the value under their hashes |
| Reading.DataReader.PushStruct | ApplyJournal/DataReader.cpp:172-182 | a fresh empty node is stored under the attribute on the top context and pushed onto the stack; the interner files the name under its hash |
| Reading.DataReader.PopStruct | ApplyJournal/DataReader.cpp:103-106 | the top context is popped, and the struct it held is closed into the one below it |
| Reading.InvStart | ApplyJournal/DataReader.cpp:37-40 | a fresh root alone on the stack, with nothing stored, meets the reader's invariant |
| Reading.InvSet | ApplyJournal/DataReader.cpp:163 | setting a BASIC value on the top node keeps the tree matching the stored frames, ranked and acyclic |
| Reading.InvPush | ApplyJournal/DataReader.cpp:177-180 | setting and pushing a fresh node keeps the tree matching the stored frames, ranked and acyclic |
| Reading.InvPop | ApplyJournal/DataReader.cpp:105-106 | popping the top node closes it with exactly the content its frame stored |
| Reading.ReadLinesStep | ApplyJournal/DataReader.cpp:46-55 | reading stops at the first line that errs, otherwise it goes on from the depth that line reached |
| Reading.BuildLinesStep | ApplyJournal/DataReader.cpp:46-55 | the stores stop after the first line that errs (its own stores kept), otherwise they go on from what that line stored |
| Reading.TracksEnd | ApplyJournal/DataReader.cpp:46-55 | when the loop stops, at the end of the file or at an error, the file's outcome and stores on the frames are those reached |
| Reading.EmptyLine | ApplyJournal/DataReader.cpp:119-124 | an empty line ends cleanly and stores nothing, on the frames or in the interner |
| Reading.LeadingTermErrors | ApplyJournal/DataReader.cpp:114-135 | a line starting with `{` or `=` gives ERROR_MISSING_ATTRIBUTE, a leading VALUE_ONLY word gives ERROR_MALFORMED_ATTRIBUTE, and a comment line ends cleanly |
| Reading.DanglingName | ApplyJournal/DataReader.cpp:139-150 | a name alone on a line gives ERROR_NO_EQUALS: a pair must fit on one line |
| Reading.DanglingEquals | ApplyJournal/DataReader.cpp:154-187 | a name and `=` with nothing after them give ERROR_MISSING_VALUE |
| Reading.EqualsAlone | ApplyJournal/DataReader.cpp:183-187 | `=` at the end of the line leaves the value missing |
| Reading.LineLifted | ApplyJournal/DataReader.cpp:84-87 | whether a line sets a value on the root does not depend on the lines before it |
| Reading.TextTouched | ApplyJournal/DataReader.cpp:94-201 | on the rest of a line, the error and depth do not depend on whether the root was already set |
| Reading.FromTouched | ApplyJournal/DataReader.cpp:94-201 | the same, from a pending term |
| Writing.Spaces | ApplyJournal/DataWriter.cpp:119-125 | exactly n characters, all spaces |
| Writing.CommentTextsOneLine | ApplyJournal/DataWriter.cpp:104-115 | the fixed comment texts hold no line break |
| Writing.DataWriter.constructor | ApplyJournal/DataWriter.cpp:18-22 | the indent width is 4 |
| Writing.DataWriter.Indent | ApplyJournal/DataWriter.cpp:119-125 | exactly `amount` spaces are appended |
| Writing.DataWriter.LeadingComment | ApplyJournal/DataWriter.cpp:102-109 | succeeds and appends the two comment lines and a blank line |
| Writing.DataWriter.TrailingComment | ApplyJournal/DataWriter.cpp:111-117 | succeeds and appends a newline and the written-at comment |
| Writing.DataWriter.WriteHierarchy | ApplyJournal/DataWriter.cpp:58-100 | always succeeds; a null tree writes nothing, otherwise exactly the rendering of the tree |
| Writing.DataWriter.WriteAttributes | ApplyJournal/DataWriter.cpp:65-96 | the entries of every attribute, once each, in ascending hash order |
| Writing.DataWriter.EntryAppended | ApplyJournal/DataWriter.cpp:69-96 | after each attribute, the output so far renders one more key |
| Writing.DataWriter.RenderKeysNext | ApplyJournal/DataWriter.cpp:69-96 | one more key renders one more entry |
| Writing.DataWriter.WriteEntry | ApplyJournal/DataWriter.cpp:71-93 | BASIC: indent, name, ` = `, the value verbatim and a newline; STRUCT: `name = {`, the struct one level deeper and `}` at the same indent; INVALID: nothing |
| Writing.DataWriter.Write | ApplyJournal/DataWriter.cpp:28-56 | false and nothing written for a null tree, an empty file name or a file that does not open; otherwise the leading comment, the tree from depth 0 and the trailing comment |
| Writing.LeadingLines | ApplyJournal/DataWriter.cpp:104-107 | the leading comment splits into the two comment lines and two empty lines |
| Writing.TrailingLines | ApplyJournal/DataWriter.cpp:113-115 | the trailing comment splits into an empty line and the comment line |
| Writing.CommentLines | ApplyJournal/DataWriter.cpp:104-116 | every line of the two comments is blank or starts with `#` |
| Writing.CommentLineReads | ApplyJournal/DataReader.cpp:119-124 | a comment line or a blank one reads as nothing, so the writer's comments do not disturb the reader |
| Writing.PaddedLine | ApplyJournal/DataWriter.cpp:78-82 | the indentation and the newline are trimmed away when the line is read |
| Writing.ValueReads | ApplyJournal/DataReader.cpp:155-164 | a plain value after `=` is stored verbatim as BASIC on the top struct under the attribute's hash, and the line ends cleanly |
| Writing.EqualsReads | ApplyJournal/DataReader.cpp:141-143 | `=` moves the machine on to the value |
| Writing.NameReads | ApplyJournal/DataReader.cpp:114-118 | a plain name at the start of a line is remembered, stores nothing, and `=` is expected next |
| Writing.PairReads | ApplyJournal/DataReader.cpp:114-164 | a plain name, `=` and a plain value read as one pair: the value is stored under the name's hash on the top struct, the root at depth 1 |
| Writing.BasicLineReads | ApplyJournal/DataWriter.cpp:76-82 | a BASIC line the writer produces for a plain name and a plain value, at any indent, reads back as that name and value stored on the top struct |
| Writing.OpenReads | ApplyJournal/DataReader.cpp:172-182 | `{` after `=` stores an empty struct under the attribute's hash and opens it one level deeper |
| Writing.OpenPairReads | ApplyJournal/DataReader.cpp:114-182 | a plain name, `=` and `{` store an empty struct under the name's hash and open it |
| Writing.OpenLineReads | ApplyJournal/DataWriter.cpp:86-89 | the opening line of a STRUCT reads back as an empty struct under the name, opened one level deeper |
| Writing.CloseLineReads | ApplyJournal/DataWriter.cpp:91-92 | the closing line of a STRUCT closes the top struct into the one below, or gives ERROR_CONTEXT_UNDERFLOW at depth 1 and stores nothing |
| Journal.ExistingStructAttribute | ApplyJournal/JournalParser.cpp:284-296 | the stub always answers false |
| Journal.StructCheck | ApplyJournal/JournalParser.cpp:251-258 | the struct check can never fail |
| Journal.JournalParser.constructor | ApplyJournal/JournalParser.cpp:22-27 | nothing pending, no lines read |
| Journal.JournalParser.Checksum | ApplyJournal/JournalParser.cpp:160-211 | length at most 5 gives ERROR_MISSING_CHECKSUM; a non-space at length-5 gives ERROR_BAD_CHECKSUM; success cuts the line to its first length-5 characters with its checksum as the value; failure gives 0 |
| Journal.JournalParser.ChecksumLine | ApplyJournal/JournalParser.cpp:160-211 | error, cut line and value are those of Checksum |
| Journal.JournalParser.ClearUpdates | ApplyJournal/JournalParser.cpp:213-216 | nothing stays pending |
| Journal.JournalParser.CacheUpdate | ApplyJournal/JournalParser.cpp:218-231 | the value, raw, is filed under the lower-cased trimmed path, replacing any previous one; the result is false exactly when the key was already pending |
| Journal.JournalParser.ParseLine | ApplyJournal/JournalParser.cpp:80-158 | error and pending updates are those of the checksum check followed by the scan of the cut line from an empty map; CheckUpdates does not change the error |
| Journal.JournalParser.KeyError | ApplyJournal/JournalParser.cpp:240-269 | ERROR_MALFORMED_ATTRIBUTE exactly when the key has no dot; OK exactly when the text before the first dot names a registered file with a tree; otherwise ERROR_FILE_ID_NOT_FOUND |
| Journal.JournalParser.CheckUpdates | ApplyJournal/JournalParser.cpp:233-275 | the error of the first failing key in ascending key order; OK exactly when every pending key passes |
| Journal.JournalParser.FirstKeyErrorOk | ApplyJournal/JournalParser.cpp:238-272 | the first failing key's error is OK exactly when every key passes |
| Journal.JournalParser.FirstFailingKey | ApplyJournal/JournalParser.cpp:238-272 | otherwise it is the error of a failing key all of whose predecessors pass |
| Journal.JournalParser.ApplyUpdates | ApplyJournal/JournalParser.cpp:277-282 | the stub reports success |
| Journal.JournalParser.Outcomes | ApplyJournal/JournalParser.cpp:52-66 | one outcome per line read |
| Journal.JournalParser.Process | ApplyJournal/JournalParser.cpp:33-78 | without a tracker or an open file nothing changes and the result is false; otherwise the line count restarts and counts every line (modulo 2^32) and the result is whether no line failed |
| Journal.JournalParser.ProcessLine | ApplyJournal/JournalParser.cpp:52-66 | a blank line is skipped, any other is parsed, and the run goes on only when the line is OK |
| Journal.JournalParser.SignedLine | ApplyJournal/JournalParser.cpp:172-192 | a body signed with its checksum in four hex digits passes exactly when the checksum is at most 7FFF |
| Journal.JournalParser.StoredChecksum | ApplyJournal/JournalParser.cpp:167-198 | for a body, a space and four characters other than `****`, the line passes, cut to the body, exactly when `toShort` reads the four as the body's checksum; otherwise ERROR_BAD_CHECKSUM with value 0 |
| Journal.JournalParser.FixModeLine | ApplyJournal/JournalParser.cpp:178-182 | in fix mode `****` is accepted for any body |
| Journal.JournalParser.SignedPairAccepted | ApplyJournal/JournalParser.cpp:80-158 | a signed well-formed pair is accepted and leaves exactly that update pending, value as written |
| Journal.RunOfStep | ApplyJournal/JournalParser.cpp:47-67 | each line is counted; a blank one is skipped and a failing one ends the run |
| Journal.FirstFailure | ApplyJournal/JournalParser.cpp:47 | the first failing line, with no failure before it |
| Journal.RunOfSpec | ApplyJournal/JournalParser.cpp:46-77 | the run is OK exactly when no line fails; it stops at the first failing line with that line's error, having counted the lines up to and including it |
| Journal.Inc | ApplyJournal/JournalParser.cpp:50 | the count goes up by one modulo 2^32 |
| Journal.CountStep | ApplyJournal/JournalParser.cpp:44-50 | the wrapped count stays the true count modulo 2^32 |
| Journal.ErrorSticks | ApplyJournal/JournalParser.cpp:98-137 | once a line has an error, no later term clears it |
| Journal.DottedPathRejected | ApplyJournal/JournalParser.cpp:102-136 | a path with a dot outside quotes is VALUE_ONLY, so its line fails |
| Journal.PairAccepted | ApplyJournal/JournalParser.cpp:100-118 | a plain name, `=` and a value term leave one update pending, keyed by the name, with the value as written |
| Journal.NameTerm | ApplyJournal/JournalParser.cpp:100-104 | a plain name is the first term of a pair |
| Journal.EqualsTerm | ApplyJournal/JournalParser.cpp:105-107 | `=` is the next term |
| Journal.PlainValue | ApplyJournal/JournalParser.cpp:109-112 | a plain word is a value term |
| Journal.QuotedValueRaw | ApplyJournal/JournalParser.cpp:114 | a quoted value is cached with its quotes and escapes, without unquoting |
| Journal.HexTextValue | ApplyJournal/JournalParser.cpp:187 | four hex digits written from a value read back as that value |

## Left out

- File and stream I/O. QFile opening, `readLine` and `close`, and the QTextStream are left out. A file is the sequence of lines read from it, plus a flag saying whether it exists and opened. The output stream is a string that is appended to.
- Reading.DataReader.Read: does not model how `MAX_LINE_LEN` splits long lines, nor how a NUL ends a line early. A line of the model is the text one `readLine` call returns.
- Clock values. The load time in `DataFileTracker::Add` and the timestamps in the writer comments are string parameters. Date formatting is left out.
- `qHash`, `qChecksum` and `QString::toUtf8` are function-valued fields with no properties assumed. `QRegExp` in `MustQuote` is written out as its character class.
- QtText.IsSpace: a fixed list of the characters `QChar::isSpace` accepts, not Qt's Unicode tables.
- QtText.ToLower: folds ASCII letters only.
- QtText.ToShortHex: follows `toShort(&ok, 16)` for white space around the number, an optional sign, an optional `0x` prefix and the signed 16-bit range. It does not model Qt's handling of non-ASCII digits or locale settings.
- Reading.DataReader.ParseLine: `m_CurrentLine` is a local of the parse rather than a field. Nothing reads it between calls.
- Memory management is left out: destructors, deleting the root in `Read`, and the shallow copy and assignment of `DataValue`. The garbage-collected heap stands in for it.
- Writing.DataWriter.WriteEntry: the product `depth * m_Indent` is unbounded rather than a wrapping `uint`.
- Writing.BasicLineReads: the round trip from writer to reader is stated line by line (BASIC, struct-opening and closing lines), for plain names and values only; a whole-tree `read(write(T)) == T` is not proved. The writer does not quote values, so others do not read back as written.
- Journal.JournalParser.Checksum: strings are sequences of Unicode scalar values, not of UTF-16 code units as in `QString`. A line holding a character above U+FFFF has a different length here than in the source, so the length and separator checks can differ (for example on `😀ABCD`).
- QtText.StrLess: orders keys by code point, where `QString`'s `<` compares UTF-16 code units. The two differ only between characters above U+FFFF and those in U+E000 to U+FFFF, which changes the key order that `CheckUpdates` walks and that `Files` returns only for such keys.
- Logging is left out: the duplicate-key warning in `ParseLine`, every ErrorLogger call, and `main.cpp`.
- Deduplication.StringDeduplicator: the lazily created singleton is one object, shared by reference between the tree, the reader and the writer.
- `DataWriter.h` declares a `Write` without the `loaded` parameter; the model follows `DataWriter.cpp`.
- Some members are split-out loop bodies or switch branches of the source operations they cite, not operations of their own: `Turn`, `TakeTerm`, `TakeName`, `TakeValue`, `TakeText`, `TakeOpen`, `SetValue`, `PushStruct`, `PopStruct`, `ReadNext`, `ReadLine`, `Finish`, `WriteAttributes`, `WriteEntry`, `ScanWord`, `QuotedStep`, `PlainStep`, `ProcessLine`, `FirstPending`.
