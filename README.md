# timedb search and query logic in Dafny

timedb records each command it runs (its argument vector, wall, user and
system time, start time, exit code and resource usage) in an ordered
key/value store. The key is the start time followed by the command. A
search takes an optional time range and any mix of free-text words and
relational keywords such as `Walltime>10s` or `Exitcode=0`, and prints
every stored command that matches all of them.

This project models the decision logic between the command line and the
store, as it is written in `main.go`:

- `base.dfy` (module `Base`): the recorded `CommandInfo` and a stored
  `Entry`. The Go library facilities the core calls are bundled in one
  `Lib` value that every operation takes as a parameter: the clock, the
  time parsers and formatter, `time.ParseDuration`, `strconv.Atoi` and the
  value decoder. Instants and durations are integers in nanoseconds. The
  zero instant is Go's `time.Time{}`.
- `text.dfy` (module `Text`): substring containment (`strings.Contains`), the
  first index of a character set (`strings.SplitN` on `-`), the split at
  `<`, `=` and `>` (`regexp.Split`), and `strings.Join`. Each comes with
  the facts the rest of the model needs.
- `keywords.dfy` (module `Keywords`): the two keyword kinds and their
  matching. Also covered: how a token is recognised as a keyword, and how
  the search tokens are partitioned into keywords and free-text words.
- `filters.dfy` (module `Filters`): the two AND-filters. One applies the
  free-text words to the command key, the other applies the keywords to
  the record's fields.
- `timerange.dfy` (module `TimeRange`): time parsing with its four layouts
  tried in order, and the `A-B`, `A-`, `-B` and single-day range rules.
- `dbkey.dfy` (module `DbKey`): the command key and the store key. Decoding
  a key guesses the width of its time text (23, then 22, then 21 bytes).
- `search.dfy` (module `Search`): the filter loop of the search, and the
  loop of the dump, over the sequence of entries the store's iterator
  yields. Each entry yields at most one event: a result line, or a warning
  that it was skipped.

The source's loops and its step-by-step code are methods, proved equal to a specification function:
`isIn`, `findInCmdKey`, `findInCmdInfo`, `findSpecialKeywords`,
`parseTime`, `parseStartEnd`, `recoverDbKey`, the search and the dump.
The properties are then proved as lemmas about those functions. The
source's expression-only code (`Matches`, `parseKeywordRelation`,
`parseKeyword`, `makeCmdKey`, `makeDbKey`) is modelled as functions.

A few behaviours of the code as written are stated as they are:

- `recoverDbKey` slices the key's first 23 bytes unconditionally. It also
  slices from byte 24 when that prefix parses. A shorter key makes the Go
  program panic. The model keeps that case as the outcome `SlicePanic` of
  `DbKey.KeyFields` and as the event `Panicked` of a scan. It is the last
  event of the scan: nothing after it is printed (`Search.PanicIsLast`).
- The key layout `2006-01-02 15:04:05.999` drops trailing zeros of the
  fraction. A start time on a whole second therefore gives a 19-byte time
  text, which none of the three tried widths can parse. Such a key never
  decodes (`DbKey.WholeSecondKeyUndecodable`). When its command key has
  two bytes or less (`ls`, `df`), `makeDbKey` writes a key under 23 bytes,
  and every later search or dump that reaches it panics
  (`Search.WholeSecondRecordNeverFound`).
- `run` stores the start as a UTC time, so `makeDbKey` writes its UTC
  text, and `time.Parse` reads that text back as UTC. A decoded start is
  therefore the stored start itself, cut to milliseconds.
- `parseKeywordRelation` picks the operator by looking for `<`, then `=`,
  then `>` anywhere in the token. `parseKeyword` accepts a token only when
  it has exactly one operator, so the two agree on every keyword
  (`Keywords.RelationOfSingleOperator`).

The facts about Go's `time` package that the key round trip rests on are
stated once, as `DbKey.KeyTimeLaws`. First, an instant with a four-digit
year formats to a text whose width is set by its milliseconds, and that
text parses back to that instant, cut to milliseconds.
Second, a formatted instant followed by a space and any text does not
parse.

## Model

| member | source | states |
|---|---|---|
| Keywords.Matches | main.go:125-173 | a recorded value matches iff it is strictly less than, equal to, or strictly greater than the keyword's value, as the relation is negative, zero or positive; the same for integer and duration keywords |
| Keywords.MatchesTrichotomy | main.go:125-143 | for any value, exactly one of `<`, `=`, `>` matches |
| Keywords.ParseKeywordRelation | main.go:371-381 | `<` anywhere gives -1; otherwise `=` gives 0; otherwise `>` gives +1; a token with none of them is a ParseError |
| Keywords.RelationOfSingleOperator | main.go:371-381 | in a token with a single operator, the relation is that operator's |
| Keywords.IsIn | main.go:391-398 | true iff the name is in the list |
| Keywords.ParseKeyword | main.go:400-433 | a keyword comes from a token that splits into exactly two pieces; its name is the first piece and is one of the five known names; it is well typed; a ParseError names the second piece |
| Keywords.ParseKeywordAt | main.go:400-433 | for a token with a single operator: the name is the text before it and the relation is the operator's; the value is the parsed text after it, a duration for Walltime/Systemtime/Usertime and an integer for Exitcode/Signals; a known name with an unparsable value is a ParseError naming that text and type; an unknown name is "no keyword found" |
| Keywords.ParseKeywordNoOperator | main.go:400-433 | a token that does not split into exactly two pieces is "no keyword found" |
| Keywords.ParseKeywordSucceeds | main.go:400-433 | a token is a keyword iff it has a single operator, a known name and a value of that name's type; every keyword is well typed; a failure is a ParseError iff the token has a single operator and a known name |
| Keywords.FindSpecialKeywords | main.go:435-452 | the loop returns the keywords and the remaining tokens as the specification functions define them, each in input order |
| Keywords.ClassifyAppend | main.go:435-452 | classification of a concatenation is the concatenation of classifications, so both outputs keep input order |
| Keywords.ClassifyPartition | main.go:435-452 | number of keywords plus number of free-text words equals the number of tokens |
| Keywords.FreeTextMembers | main.go:435-452 | the free-text words are exactly the tokens that do not parse as keywords |
| Keywords.SpecialKeywordsMembers | main.go:435-452 | the keywords are exactly the parses of the tokens that are keywords, and each is well typed |
| Text.SplitPieces | main.go:402-403 | the split at `<`, `=`, `>` has a single piece iff the token holds none of them, and no piece holds one |
| Text.SplitInTwo | main.go:402-404 | the split has exactly two pieces iff the token has exactly one operator; the pieces are the text before it and the text after it |
| Text.FirstIndexIn | main.go:340-341 | the result is the first index holding a character of the set, or none when no index does |
| Text.JoinSplit | main.go:207-208 | joining the pieces of a split at one character with that character gives the string back |
| Filters.FindInCmdKey | main.go:361-369 | true iff every word is a substring of the command key; the loop stops at the first missing word |
| Filters.TextMatchesAppend | main.go:361-369 | free-text words combine by AND over any split of the word list |
| Filters.FieldOfKnownNames | main.go:457-470 | the names that select a record field are exactly the five keyword names the parser accepts |
| Filters.FindInCmdInfo | main.go:454-476 | true iff every keyword with a known name matches its field (Walltime to wall, Usertime to user, Systemtime to system, Exitcode to exit code, Signals to signal count); unknown names are skipped |
| Filters.InfoMatchesAppend | main.go:454-476 | the empty keyword list matches every record, and keywords combine by AND |
| Filters.RelationalBoundary | main.go:454-476 | `Walltime>10s` rejects exactly ten seconds and accepts ten seconds and a millisecond; `Exitcode=0` accepts exit code 0 and no other |
| TimeRange.FirstLayoutWins | main.go:310-330 | parsing fails iff every layout fails; otherwise the result is the first accepting layout's time, moved onto today when it has no date |
| TimeRange.ParseTime | main.go:310-330 | the loop succeeds iff the layout-order specification parses the text, and returns its time, or the zero time on failure |
| TimeRange.StartEnd | main.go:332-359 | no arguments is an error; on any error the range is (zero, now); there is no error iff the first argument reads as a dash range or as a single time |
| TimeRange.ParseStartEnd | main.go:332-359 | the step-by-step code returns the range the specification function defines |
| TimeRange.OpenEndedRange | main.go:340-349 | `A-` ranges from the time of A to now |
| TimeRange.OpenStartRange | main.go:340-349 | `-B` ranges from the zero time to the time of B |
| TimeRange.ClosedRange | main.go:340-349 | `A-B` ranges from the time of A to the time of B, split at the first `-` |
| TimeRange.DashRangeEndFails | main.go:340-349 | `A-B` where only A parses ranges from the time of A to now |
| TimeRange.DashRangeStartFails | main.go:340-349 | `A-B` where only B parses ranges from the zero time to the time of B |
| TimeRange.DashRangeNeitherParses | main.go:340-358 | `A-B` where neither side parses is read as one time, giving that day, and otherwise the range (zero, now) with an error |
| TimeRange.SingleDayRange | main.go:351-356 | a single time T without `-` gives [T, T + 24h) |
| DbKey.MakeCmdKey | main.go:207-208 | every argument occurs in the command key, and the key splits back at its spaces into the argument vector when no argument holds a space |
| DbKey.MakeDbKey | main.go:224-227 | the key is the start's time text, one space, then the command key |
| DbKey.FirstParsingWidth | main.go:237-256 | the result is the first width whose key prefix parses, or none when no width does |
| DbKey.KeyWidthsUnrolled | main.go:241-251 | widths are tried as 23, then 22, then 21 |
| DbKey.KeyFields | main.go:237-256 | decoding panics iff the key is under 23 bytes, or exactly 23 bytes that parse whole; it fails iff no tried width's prefix parses; otherwise the command is the text after the time text and the space, and the time is that prefix's |
| DbKey.KeyFieldsFirstWidth | main.go:241-254 | on keys of 23 bytes or more, decoding uses the first width whose prefix parses |
| DbKey.RecoverDbKey | main.go:237-256 | the step-by-step code gives the outcome `KeyFields` defines, a slice out of range included |
| DbKey.KeyRoundTrip | main.go:224-256 | the key of a record with a four-digit year, not on a whole second, decodes to that start cut to milliseconds and its command key, or panics when the key is under 23 bytes |
| DbKey.WholeSecondKeyUndecodable | main.go:224-256 | the key of a record on a whole second never decodes: it panics when the command key has two bytes or less and is malformed otherwise |
| Search.SearchDb | main.go:485-525 | the loop's events are those of the search specification: all arguments as tokens when the time range failed, the rest after the first otherwise; a panic ends the loop |
| Search.DumpDb | main.go:281-308 | the dump's events are those of a search with no words and no keywords |
| Search.ScanAppend | main.go:507-525 | a scan of a concatenation is the scan of the first part followed by the scan of the second, unless the first part panicked, so results keep scan order |
| Search.PanicEndsScan | main.go:507-525 | once a prefix of the entries has panicked, the entries after it are not scanned |
| Search.StepPanic | main.go:242-254 | an entry panics iff its key is out of bounds for decoding, and the panic is then all it yields |
| Search.PanicIff | main.go:507-525 | a scan ends in a panic iff some entry's key is out of bounds for decoding |
| Search.PanicIsLast | main.go:507-525 | a panic is the last event of a scan and occurs at most once |
| Search.MalformedEntrySkipped | main.go:508-519 | an entry whose key does not decode, or whose value does not decode after the text filter passed, gives one warning, and the scan goes on over the entries after it |
| Search.EmittedIff | main.go:507-525 | a record is emitted iff some entry's key decodes to its start and command, every word occurs in that command, its value decodes to the record, every keyword matches, and no earlier entry panicked |
| Search.ScanAtMostOnePerEntry | main.go:507-525 | a scan prints at most one line per entry |
| Search.ValueDecodedAfterTextFilter | main.go:514-519 | an entry whose key fails or whose command misses a word gives the same output whatever the value decoder does; a value warning implies the text filter passed |
| Search.DumpShowsEveryDecodable | main.go:281-308 | the dump prints a record iff some entry's key and value decode to it and no earlier entry panicked |
| Search.QueryPartitionsTokens | main.go:489-495 | the tokens are all arguments when the range failed, otherwise the arguments after the first; each token becomes a keyword or a word; every keyword is well typed |
| Search.StoredRecordFound | main.go:224-227 | a record stored under its own key, with a four-digit year and not on a whole second, is found, with its own start cut to milliseconds and its command key, iff its command holds every word and every keyword matches, unless its key is under 23 bytes and panics; a query whose words are the record's own arguments and which has no keywords finds a key of 23 bytes or more |
| Search.WholeSecondRecordNeverFound | main.go:224-256 | a record on a whole second is never found: its entry panics when its command key has two bytes or less and is skipped as malformed otherwise |

## Left out

- `run`, `main`, `init`, flag parsing, help and licence texts: process spawning, signals and command-line plumbing.
- Printing: the verbose output, the "start date is larger than end date" warning, and the `%.2f` rendering of durations (`parseDuration`, `printDuration`). Result lines and skip warnings are events carrying the decoded fields, not text.
- Warnings printed by `findSpecialKeywords` for a ParseError: output only; the classification is modelled.
- The MessagePack codec (`EncodeMsgpack`, `DecodeMsgpack`, `makeDbValue`, `recoverDbValue`): a foreign library, modelled as the partial function `decodeValue`.
- LevelDB open, close, `Put` and the iterator: the store is the given sequence of entries in iteration order. The iterator bounds built from `Time.String()` are not modelled. That rendering differs from the key layout, so no time-order property of the scan is claimed.
- Go's `time` and `strconv` internals (`ParseInLocation`, `Parse`, `Format`, `Year`, `AddDate`, `ParseDuration`, `Atoi`, `Now`) and the local time zone are parameters. The key round trip assumes only what `KeyTimeLaws` states of them.
- DbKey.KeyRoundTrip: covers only starts with a four-digit year (years 0 to 9999). Go writes other years wider or with a sign, and its layout parser does not read them back, so those keys are not claimed to decode.
- Search.StoredRecordFound: covers only four-digit years, for the same reason.
- `time.Now()` is read once per invocation; the source reads it several times, at nearly the same instant.
- times_darwin.go and times_linux.go: syscall wrappers that are not part of this model.
- CommandInfo: of the resource-usage counters only the signal count is read by the core, so only that one is modelled.
- Integer widths: Go's `int` and `time.Duration` are 64-bit; the model uses unbounded integers. The core only compares these values, and adds 24 hours to a parsed time.
- Keywords.Matches: Go's dynamic type assertion on the compared value is not modelled as a run-time panic. `Filters.FindInCmdInfo` requires every keyword to be well typed instead, and every parsed keyword is (`Keywords.SpecialKeywordsMembers`).
