# whatunga: paths, navigation and completion, in Dafny

whatunga is an interactive shell for building WildFly / EAP domain
topologies. The user moves a cursor through a project document (`cd`),
prints the node under a path (`ls`), and asks for tab completion. Every
command addresses the document with a small path language such as
`hosts[master].servers[4]` or `config.templates`. The `add` command parses
its arguments into a subcommand, a repeat count and a list of values.

This project models that core:

- **path/path.go** (`Paths`, `Resolver`): the path grammar and `Parse`,
  the printer `Path.String` / `Segment.String`, `Append`, `IsEmpty`, and
  `Resolve`, which walks the document one segment at a time.
- **model/model.go** (`Model`): deployment targets, `Target.String` and
  `Target.Set`, the schema of the project structs, and the stub
  `Project.Set`. Go reaches the document through reflection on `json`
  tags; here the document is an explicit tree. A node is an object (its
  fields as tag/child pairs in declaration order, plus the value of its Go
  `Name` field), a collection, or a scalar. The Go `reflect.Kind` of a
  child (Struct, Slice, anything else) is the node's constructor.
- **command/cd.go, command/ls.go** (`Navigation`, `Completer`): the `cd`
  and `ls` actions and the `cd` completer. This includes `matchesFor`,
  `ls`, `keys`, `indices`, `names` and `getSlice`. The package-level
  `CurrentPath` becomes an explicit cursor that the actions take and
  return.
- **command/add.go** (`AddCommand`): the action's loop over the arguments
  and the completer. The regular expression `--times=([0-9]+)` is modelled
  as an unanchored, leftmost, greedy match. `strconv.ParseUint(_, 10, 32)`
  is modelled with its 32-bit bound.
- `Strings` restates the parts of Go's `strings`, `strconv` and `regexp`
  packages that the code relies on. `Wrappers` holds `Option` and `Result`.

Errors are datatypes, one constructor per error the Go code returns; the
message texts are not modelled. Go maps have no order, so the listing
functions produce keys in field order, and their contracts speak about
which keys appear, not in what order.

The navigation and completion functions are built on the corrected
`Append` and the corrected `getSlice` (`CollectionAt`), not on the code as
written; see "## Findings". As written, `cd bar` from the cursor `foo`
resolves `bar` from the root, and `name[` followed by TAB offers positions
into the project's name. Lemmas such as `Paths.AppendAsWrittenDropsReceiver`
and `Completer.StringFieldAsWritten` exhibit the written behaviour.

Where the written design of the shell and its code disagree, the model
follows the code:

- There is no `LastPath` and no `cd -`.
- After a sole key, the completer appends nothing for an object and `[`
  for a collection. It never appends `.` or a space.
- Under an open `[`, numeric candidates are offered when the partial index
  passes `ParseUint(_, 10, 32)`. Named candidates are offered otherwise.
  Both kinds are offered when the partial index is empty.

## Model

| member | source | states |
|---|---|---|
| `Paths.MatchRange` | path/path.go:53 | A token the range grammar accepts splits into a name, digits before the colon and digits after it; the token is exactly `name[a:b]` rebuilt from them |
| `Paths.MatchBounds` | path/path.go:53 | The text between the brackets of a range is two digit runs around a colon, and is exactly their concatenation around `:` |
| `Paths.MatchIndex` | path/path.go:52 | A token the index grammar accepts splits into a name and an index drawn from `[A-Za-z0-9_-]+`; the token is exactly `name[index]` |
| `Paths.RangeShapeMatches` | path/path.go:53 | Every string `name[a:b]` with digit runs `a`, `b` is accepted by the range grammar with exactly those parts |
| `Paths.IndexShapeMatches` | path/path.go:52-53 | Every `name[x]` is accepted by the index grammar with its parts and rejected by the range grammar, so `Parse`'s test order sends it to the index branch |
| `Paths.NameShapeMatches` | path/path.go:51-53 | A bare name is rejected by both bracketed grammars |
| `Paths.ParseToken` | path/path.go:66-118 | A token that parses yields a segment of the grammar: numbers within Go's 64-bit `int`, named indexes that are never all digits; the segment's name is empty exactly when the token is empty |
| `Paths.ParseTokens` | path/path.go:66-119 | On success there is one segment per token, each that token's own parse; the loop fails exactly when some token fails, with the error of the first failing token |
| `Paths.Parse` | path/path.go:59-120 | The empty string is the root path; any other string has one segment per `.`-separated token, and fails exactly when some token is invalid |
| `Paths.ParseTokenIgnoresPath` | path/path.go:76-114 | The whole path text only enters error messages: a token's segment does not depend on it |
| `Paths.ParseTokenRejects` | path/path.go:76-114 | A non-empty token no bracketed grammar accepts is a plain segment when it is a name and an invalid segment otherwise; a range bound or numeric index beyond `int` is an invalid range or numeric index |
| `Paths.ParseName` | path/path.go:59-120 | A bare name parses to the single plain segment carrying that name |
| `Paths.ParseSnoc` | path/path.go:59-120 | Writing `.name` after a parseable path parses to that path's segments followed by one plain segment |
| `Paths.ParsedRange` | path/path.go:71-88 | A range token parses to its name with both bounds; a side written without digits is `Undefined` |
| `Paths.ParsedIndex` | path/path.go:90-106 | An index token parses to a numeric index when the index is all digits, and to a named index otherwise |
| `Paths.RangeTokenRoundTrip` | path/path.go:253-272 | A range token with canonical numerals prints back exactly as written |
| `Paths.IndexTokenRoundTrip` | path/path.go:253-272 | An index token with a canonical numeral, or a named index, prints back exactly as written |
| `Paths.TokenRoundTrip` | path/path.go:253-272 | Every token that parses and has canonical numerals prints back to itself |
| `Paths.NumericSegmentRoundTrip` | path/path.go:90-101 | A numeric-index segment within range prints as a token that parses back to the same segment |
| `Paths.NamedSegmentRoundTrip` | path/path.go:102-106 | A named-index segment prints as a token that parses back to the same segment |
| `Paths.BoundStringRoundTrip` | path/path.go:258-267 | A range bound prints as digits (none for `Undefined`) that read back as that bound and fit `Atoi` |
| `Paths.RangeSegmentRoundTrip` | path/path.go:71-88 | A range segment with valid bounds prints as a token that parses back to the same segment |
| `Paths.SegmentRoundTrip` | path/path.go:253-272 | Every well-formed segment prints as a token that parses back to it |
| `Paths.KindStringHasNoDot` | path/path.go:257-270 | What `Segment.String` writes after the name never holds a `.` |
| `Paths.SegmentStringHasNoDot` | path/path.go:253-272 | A printed well-formed segment never holds a `.`, so joining segments with `.` is unambiguous |
| `Paths.PrintParse` | path/path.go:238-251 | Printing the parse of a string gives the string back when its numerals are canonical |
| `Paths.ParsePrint` | path/path.go:238-251 | Parsing the printed form of any well-formed path gives that path back |
| `Paths.Append` | path/path.go:222-232 | The result begins with the whole receiver and continues with the whole argument |
| `Paths.AppendPrints` | path/path.go:222-232 | An appended path prints as the receiver's print, a `.`, and the argument's print |
| `Paths.Copy` | path/path.go:226 | `copy` keeps the destination's length: a shorter source replaces its first elements, a longer one is cut to that length, so an empty destination receives nothing |
| `Paths.AppendAsWrittenDropsReceiver` | path/path.go:222-232 | As written, `Append` returns its argument alone, and differs from the concatenation for every non-empty receiver |
| `Paths.AppendFooBar` | path/path_misc_test.go:24-30 | `foo` appended with `bar` prints `bar` as written and `foo.bar` as corrected, the value the repository's test expects |
| `Resolver.FindNamed` | path/path.go:182-197 | The position found holds an element whose `Name` equals the index, and no earlier element has that name; nothing is found exactly when no element has it |
| `Resolver.Step` | path/path.go:129-213 | One segment's step, with each error exactly when its condition holds: not a struct, tag missing, index on an object or a scalar, collection without an index, numeric index out of bounds, no element of that name, range. Every error names the segment it stopped at. A plain segment succeeds exactly when the context is an object whose tagged child is an object or a scalar, and selects that child; a numeric index selects the element when it is in bounds; a named index selects the first element of that name |
| `Resolver.Resolve` | path/path.go:124-220 | The empty path resolves to the root, and a failing first step is the error of the whole walk |
| `Resolver.ResolveOne` | path/path.go:124-220 | A one-segment path resolves exactly as that segment's step; with `EmptyPathIsRoot` and `ResolveAppend` this fixes the walk on every path, so a successful step continues it |
| `Resolver.EmptyPathIsRoot` | path/path.go:59-62 | `Parse("")` is the root path, which resolves to the document itself |
| `Resolver.ResolveAppend` | path/path.go:124-220 | Resolving `p` then `q` is resolving `q` from wherever `p` leads, and fails exactly as `p` does |
| `Resolver.PrefixResolves` | path/path.go:124-220 | Every prefix of a resolvable path resolves, in particular its parent |
| `Resolver.RangeNeverResolves` | path/path.go:200-201 | A path holding a range segment anywhere never resolves |
| `Resolver.ScalarIsTerminal` | path/path.go:129-133 | Below a scalar no segment resolves: the walk stops because a scalar has no tags |
| `Model.TargetString` | model/model.go:29-31 | The printed target is its name, one colon, and its version, in that order |
| `Model.SetTarget` | model/model.go:34-53 | Fails with "illegal format" exactly when the value does not split into two parts on `:`, leaving the receiver alone; otherwise the receiver becomes the two parts, and no error is returned exactly when they form a supported target |
| `Model.SetAcceptsExactlySupported` | model/model.go:34-59 | `Set` succeeds on exactly the spellings `wildfly:8.0`, `wildfly:8.1` and `eap:6.3` |
| `Model.SupportedSpellings` | model/model.go:55-59 | The supported targets print as `wildfly:8.0`, `wildfly:8.1` and `eap:6.3` |
| `Model.SetInvertsString` | model/model.go:29-53 | Setting the printed form of a supported target yields that target without error |
| `Model.ModelVersionsAreSupported` | model/model.go:55-66 | Every configuration model version names a supported target |
| `Model.Lookup` | path/path.go:134-143 | A tag selects a field carrying that tag; nothing is selected exactly when no field carries it |
| `Model.LookupAt` | path/path.go:134-140 | The field selected is the first one carrying the tag |
| `Model.FieldKinds` | command/cd.go:178-185 | The tag-to-kind table holds exactly the tags the lookup finds, each with the kind of the field it selects |
| `Model.Children` | command/cd.go:178-185 | An object's children are its tags with their kinds; any other node has none |
| `Model.NameSlot` | path/path.go:186-187 | The position found holds the Go field `Name`; none is found exactly when the struct declares no such field |
| `Model.FieldKindsAlign` | model/model.go:195-253 | Fields that match declarations tag by tag and kind by kind give the same tag-to-kind table |
| `Model.ConformsKind` | model/model.go:195-253 | A node of a Go type has the kind that type's reflection reports |
| `Model.ConformsField` | model/model.go:195-253 | Each field of a conforming struct carries the declared tag and a value of the declared type |
| `Model.ChildrenFollowSchema` | model/model.go:77-84 | The kinds listed for a conforming node are exactly those its struct declaration gives |
| `Model.UserNameIsUsername` | model/model.go:250-253 | A user's name for named indexes is the value stored under the tag `username` |
| `Model.JvmOptionsAreBare` | model/model.go:242-248 | A JVM's `options` is a collection of bare strings, so a named index never selects one |
| `Model.ProjectSchema` | model/model.go:77-84 | The project's tags are `name` and `version` (scalars), `config` (an object), and `server-groups`, `hosts` and `users` (collections) |
| `Model.ProjectSet` | model/model.go:188-193 | Setting a value leaves the document unchanged, whatever the path and values |
| `Navigation.Target` | command/cd.go:84-99 | `..` is the parent and fails at the root; `/` is the root and fails at the root; any other argument is the cursor extended by its parse, failing exactly when the parse fails |
| `Navigation.ChangeDirectory` | command/cd.go:76-106 | The cursor moves only on success. No argument and too many arguments are errors. `..` and `/` succeed exactly off the root. A path argument succeeds exactly when it parses and the extended cursor resolves, and then becomes the cursor |
| `Navigation.ListAction` | command/ls.go:23-53 | Too many arguments fail. Without an argument, the node the cursor resolves to. `..` is the parent's node and fails at the root; `/` is the document itself and fails at the root. A path argument fails as its parse fails, and otherwise gives the node at the cursor extended by it, or that path's resolution error |
| `Navigation.CdPreservesResolvable` | command/cd.go:76-106 | A cursor that resolves keeps resolving after any `cd`, successful or not |
| `Navigation.CdIntoThenUp` | command/cd.go:84-104 | Entering one segment and then `cd ..` returns to the starting cursor |
| `Navigation.ListAgreesWithCd` | command/ls.go:23-53 | From a resolvable cursor, `ls x` shows the node `cd x` moves to, and fails with the error `cd x` reports |
| `Navigation.CdNeedsIndex` | path/path.go:162-166 | Entering a collection without an index fails with "missing index", and the cursor stays put |
| `Completer.KeysOf` | command/cd.go:255-261 | Each object- or collection-valued tag appears once, and no other tag appears |
| `Completer.Ls` | command/cd.go:173-189 | The children of the context whose kind is object or collection, with their kinds; empty when the context does not resolve |
| `Completer.Keys` | command/cd.go:255-261 | The listing's tags, each once, and nothing else |
| `Completer.CollectionAt` | command/cd.go:226-253 | The elements of the collection the tag names in a resolvable object context, and nothing in every other case |
| `Completer.GetSliceAsWritten` | command/cd.go:226-253 | As written: invalid exactly when the context does not resolve, and a collection's elements whenever the tag names one |
| `Completer.Indices` | command/cd.go:196-203 | One slot per element, holding its decimal position exactly when that starts with the partial index, and empty otherwise |
| `Completer.NameIndices` | command/cd.go:212-223 | The ascending positions of exactly the elements carrying a `Name` that starts with the partial index, each once |
| `Completer.NamesOffered` | command/cd.go:212-223 | A name is offered exactly when it starts with the partial index and some element carries it |
| `Completer.Names` | command/cd.go:206-224 | The `Name` values of the elements `NameIndices` lists, in that order: one entry per element whose `Name` starts with the partial index, in collection order, repetitions kept |
| `Completer.LastOpenSquareBracket` | command/cd.go:121 | When the last `[` of a segment is not closed, the segment is the collection name, `[`, and a bracket-free partial index |
| `Completer.SplitLastSegment` | command/cd.go:56 | A token with a `.` is the text before its last `.`, the `.`, and a dot-free last segment; a token without one is all last segment |
| `Completer.MatchesFor` | command/cd.go:109-171 | An exact key is the sole candidate, with its kind's terminator. Under an open `[`, the bracket candidates, with `]` exactly when one is offered. Otherwise every key the partial starts and nothing else, each once, with the kind's terminator when exactly one remains |
| `Completer.WorkingContext` | command/cd.go:56-70 | The context lies below the cursor and is where `cd` with the typed prefix would move it: the cursor itself when no path precedes the last segment, the cursor extended by that path otherwise, and nothing when the path does not parse |
| `Completer.CdComplete` | command/cd.go:30-74 | With only the command typed, every key of the cursor; with an argument, `matchesFor` in the working context; nothing otherwise |
| `Completer.UnresolvableContextOffersNothing` | command/cd.go:109-189 | A context that does not resolve offers no candidates, whatever is typed |
| `Completer.SoleKeyTerminatorAgreesWithResolve` | command/cd.go:113-118 | A key's terminator is none exactly when the path extended by the key resolves, and `[` exactly when the resolver would ask for an index |
| `Completer.KeyStep` | path/path.go:151-166 | Stepping into a listed key enters an object and asks a collection for an index |
| `Completer.ParseCompleted` | command/cd.go:56-70 | The argument a completed key produces parses to the working context's path plus that key |
| `Completer.KeyCompletionNavigates` | command/cd.go:54-106 | Accepting an offered key gives a `cd` argument that moves the cursor exactly when the key came without a terminator, and then onto that key |
| `Completer.IndexCandidates` | command/cd.go:191-204 | No candidates without a collection under that tag; otherwise the slots of `Indices`, and every filled slot, closed as an index after the context, resolves to the element at that position |
| `Completer.NameCandidates` | command/cd.go:206-224 | No candidates without a collection under that tag; otherwise the names of `Names`, and every name offered, closed as an index after the context, resolves to an element carrying that name |
| `Completer.IndexCandidatesResolve` | command/cd.go:191-204 | Every numeric slot offered selects that element once the index is closed |
| `Completer.NameCandidatesResolve` | command/cd.go:206-224 | Every name offered selects an element carrying that name once the index is closed |
| `Completer.BareCommandOffersChildren` | command/cd.go:50-52 | With only `cd` typed, the candidates are exactly the object and collection children of the cursor, each once, with no terminator |
| `Completer.GetSliceCorrection` | command/cd.go:226-253 | The corrected `getSlice` agrees with the written one wherever that yields a collection, and offers nothing where the written one panics |
| `Completer.OpenBracketSplitsConfig` | command/cd.go:121 | `config[` splits into the name `config` and an empty partial index |
| `Completer.BracketedIsNotKey` | command/cd.go:113 | A segment holding `[` is never a key when tags are names |
| `Completer.UnclosedBracketCompletion` | command/cd.go:121-151 | A segment with an unclosed `[` that is not a key completes to the bracket candidates, closed with `]` exactly when one is offered |
| `Completer.ObjectFieldIsNoSlice` | command/cd.go:226-253 | An object-valued field is handed to `Len` as written, and yields no bracket candidates once corrected |
| `Completer.StringFieldAsWritten` | command/cd.go:191-253 | As written, a string-valued field reaches `Len` with its length, so `indices` would offer positions into the string; the corrected completion offers nothing |
| `Completer.OpenBracketOnObjectPanics` | command/cd.go:242-250 | Completing `config[` at the root, where `config` is an object, makes the written `getSlice` panic, while the corrected completion offers nothing |
| `AddCommand.DigitRun` | command/add.go:15 | The greedy `[0-9]+` takes the longest digit prefix and stops at the first non-digit |
| `AddCommand.LeftmostMatch` | command/add.go:15 | The position found is where the pattern matches, and it matches nowhere earlier; nothing is found exactly when it matches nowhere |
| `AddCommand.TimesDigits` | command/add.go:141-142 | The submatch exists exactly when the pattern matches anywhere; it is the greedy digit run after the leftmost `--times=` |
| `AddCommand.Classify` | command/add.go:139-157 | A subcommand name is the subcommand, whatever else it holds; otherwise a pattern match is the option; everything else is a value |
| `AddCommand.ArgError` | command/add.go:141-154 | Only the option can fail: "error reading" when its digits do not fit `ParseUint(_, 10, 32)`, and "invalid value" when they read as 0 |
| `AddCommand.ValueArgs` | command/add.go:155-157 | One entry per position `ValueIndices` lists, that argument, in argument order: the values with order and repetitions kept, so `add host a a` has two |
| `AddCommand.ValueIndices` | command/add.go:155-157 | The ascending positions of exactly the arguments classified as values, each once |
| `AddCommand.ValueArgsMembers` | command/add.go:155-157 | A string is among the values exactly when some argument is that string and is classified as a value |
| `AddCommand.LastSubCommand` | command/add.go:139-140 | Empty exactly when no argument names a subcommand; otherwise a subcommand that some argument names with no subcommand argument after it, so the last one wins |
| `AddCommand.FirstError` | command/add.go:138-158 | Nothing exactly when no argument has an error |
| `AddCommand.FirstErrorIsFirst` | command/add.go:138-158 | The error reported is that of the earliest argument with an error |
| `AddCommand.LastTimesPositive` | command/add.go:146-154 | Without argument errors, the repeat count lies in `1..2^32-1` |
| `AddCommand.DashIsNoSubCommand` | command/add.go:13 | No subcommand name starts with `-`, so an option spelling is never taken for a subcommand |
| `AddCommand.ScanArg` | command/add.go:139-157 | One loop iteration fails exactly on an argument with an error, and with that argument's error |
| `AddCommand.ScanComputes` | command/add.go:138-158 | The loop yields the first argument error; without one, it yields the last subcommand, the value arguments in order and the last repeat count |
| `AddCommand.ScanStep` | command/add.go:139-157 | One argument after an error-free prefix extends the loop's result as the reference definitions grow |
| `AddCommand.ScanStaysFailed` | command/add.go:138-158 | Once an argument has failed, the rest of the arguments do not change the error |
| `AddCommand.Add` | command/add.go:130-168 | No arguments, the first argument error, no value and more than one value are each reported. Otherwise the request has the last subcommand, the comma-split value and the last count, the count lies in `1..2^32-1`, and there is at least one value |
| `AddCommand.LeftmostIsFirst` | command/add.go:15 | The leftmost match is the first position where the pattern matches |
| `AddCommand.OptionFoundInside` | command/add.go:15 | The pattern is unanchored: `--times=` followed by digits is found anywhere in an argument, and the digits are taken up to the first non-digit |
| `AddCommand.DigitRunStops` | command/add.go:15 | The greedy digit run stops exactly at the end of the digits |
| `AddCommand.LettersAreAValue` | command/add.go:141-157 | `--times=abc` is an ordinary value, not the option |
| `AddCommand.CompletedOptionSetsTimes` | command/add.go:141-154 | `--times=n` for `n` in `1..2^32-1` is the option, is accepted, and sets the count to `n` |
| `AddCommand.SubCommandCandidates` | command/add.go:99-109 | Exactly the subcommands the query starts, other than the query itself |
| `AddCommand.AddComplete` | command/add.go:65-128 | With only `add` typed, every subcommand and `--times`. Otherwise, subcommands unless one is given, and `--times` unless given, each only if the query starts it. The terminator is `=` exactly when `--times` is the sole candidate, and a space otherwise |
| `AddCommand.OfferedSubCommandsAreRecognised` | command/add.go:99-140 | Every subcommand the completer offers is taken by the action as the subcommand |
| `Strings.Split` | path/path.go:65 | At least one piece, none holding the separator |
| `Strings.JoinSplit` | path/path.go:65 | Joining the pieces of a split with the separator restores the string |
| `Strings.SplitJoin` | model/model.go:35 | Splitting a join of separator-free pieces gives the pieces back |
| `Strings.Fields` | command/cd.go:31 | Non-empty, space-free fields, the first starting where the line starts when it does not start with a space |
| `Strings.FieldsEmpty` | command/cd.go:31 | A blank line has no fields |
| `Strings.FieldsSkipsSpace` | command/cd.go:31 | A space at the start of the line is skipped: the fields are those of the rest |
| `Strings.FieldsSkipsSpaces` | command/cd.go:31 | Any run of spaces before the text is skipped, so `cd ` has the one field `cd` and `cd  con` the same fields as `cd con` |
| `Strings.FieldsWord` | command/cd.go:31 | A word ending at a space or at the end of the line is one whole field, followed by the fields of the rest |
| `Strings.FieldsJoin` | command/cd.go:31 | Words joined by single spaces have exactly those words as their fields, in order, so `cd hosts` gives the two fields `cd` and `hosts` |

## Left out

- Reflection failures: errors from `reflections.Tags`, `GetFieldKind` and `GetField`, other than asking a non-struct for its tags, cannot arise in the document tree. The `context == nil` check (path/path.go:215-217) is left out because the tree holds no nil values.
- Map order: `ls`, `keys` and `reflections.Tags` iterate Go maps, whose order is unspecified. The model lists keys in field order, and the first field wins when two fields share a tag (model.go has no such structs).
- Output: the JSON marshalling and printing in `ls` (command/ls.go:54-59), the `fmt.Printf` in `add` (command/add.go:166) and the completer's `log` calls (command/add.go:88-97, 117-121) are I/O. `ListAction` returns the node that would be printed.
- Error messages: errors are datatype constructors; their texts are left out. This includes the "Invalid value" message, which formats `times` rather than the rejected `t`.
- Unreachable code: `len(groups) < 2` (command/add.go:143-145) cannot hold once the pattern matched, since it has one group, so it is not modelled.
- `path.SplitLastSegment` and `path.LastOpenSquareBracket` are defined in another file of the `path` package, not modelled here. `Completer.SplitLastSegment` and `Completer.LastOpenSquareBracket` carry assumed contracts: split at the last `.`, and split at a last `[` that is not closed.
- The `ls` completer calls `completion`, defined in another file of the `command` package, not modelled here.
- Project I/O: `NewProject`, `OpenProject`, `Save`, `Load`, `createTemplate` and the `Foo`/`Bar` structs of model/model.go are file handling and test scaffolding, outside the navigation core.
- `Completer.GetSliceAsWritten`: a string-valued field yields `Chars` with its length in characters; Go's `Len` counts bytes.
- `Navigation.Target`: extends the cursor with the corrected `Append`; as written, the argument's path alone is the target (path/path.go:222-232).
- `Navigation.ChangeDirectory`: moves to the cursor extended by the argument, through the corrected `Append`; as written, `cd` resolves the argument from the root.
- `Navigation.ListAction`: lists the cursor extended by the argument, through the corrected `Append`; as written, `ls` lists the argument's path from the root.
- `Completer.CdComplete`: completes in the working context built with the corrected `Append`, and under `[` with the corrected `getSlice`; as written, a struct-valued field panics and a string-valued field offers positions into the string.
- `Completer.MatchesFor`: takes its bracket candidates from the corrected `getSlice`, which offers nothing for a field that is not a collection.
- `Completer.KeysOf`: does not fix the order of the keys, because Go's map order is unspecified.
- `Paths.ParseToken`: `Atoi` is modelled on digit strings only, because the grammars admit no sign.

## Findings

| source | as written | input that shows it | evidently intended | confidence | as-written member | corrected member |
|---|---|---|---|---|---|---|
| path/path.go:222-232 | `copy(result, self)` copies into a nil slice with room for nothing, so `Append` returns only its argument | `Parse("foo")` appended with `Parse("bar")` prints `bar`; `cd servers[0]` from `hosts[0]` would try the path `servers[0]` from the root | the receiver followed by the argument, `foo.bar`, as the repository's own `TestAppend` expects | high; not executed | `Paths.AppendAsWrittenDropsReceiver` | `Paths.AppendPrints` |
| command/cd.go:242-250 | the guard tests the kind of `reflect.TypeOf(check)`, the type of the `reflect.Value` wrapper, which is always a struct. Any field the tag names is returned, or the context struct itself for an unknown tag, and `Len` then panics on a struct | `cd config[` followed by TAB at the root of a project | only a slice-valued field is returned; anything else yields no candidates | high; not executed | `Completer.OpenBracketOnObjectPanics` | `Completer.GetSliceCorrection` |
