# go-pkgz/enum: the value collector, its naming helpers and the generated `status` API

This project models two parts of the enum code generator.

The first is the generator object from `internal/generator/generator.go`. `New` validates the private type name. `Parse` walks every `const` block of every file of every parsed package. It keeps a positional counter per block and records `name -> counter` in the `values` map. It fails when the map stays empty. `Generate` turns the map into the value list, sorted by private name, and picks the output package name and the output file name. The naming helpers `splitCamelCase`, `getFileNameForType` and `isValidGoIdentifier` are modelled as loops, each proved against a reference function.

The second is the API generated for the example type `status` (`_examples/status/status_enum.go`). It covers parsing by name, `String`, text marshalling, `Scan` through a pointer receiver, the two ordered tables and the early-stopping iterator. A last module connects the two parts. It applies the collector to the example's `const` block and proves that the value list it generates lines up with `StatusValues()`.

Modules:
- `Wrappers`: an `Option` standing for a Go `error`.
- `Ascii`: the character classes the generator uses, restricted to ASCII.
- `GoStrings`: `HasPrefix`, `TrimPrefix`, `Join`, and Go's byte-wise string order. `sort.Strings` is modelled as an insertion sort.
- `Naming`: the string helpers.
- `Collector`: the const-block walk as specification functions, over an abstract syntax. A package holds files, a file holds its `const` blocks, a block holds specs, and a spec is either a non-value spec or a value spec with its names.
- `Generator`: the `Generator` class, whose methods update `values`, `pkgName` and `lowerCase` in place.
- `StatusEnum`: the generated API. A `*Status` receiver is the class `StatusVar`.
- `StatusGeneration`: the generator applied to `_examples/status/status.go`.

The model follows the code as written:
- The code evaluates no explicit values, no `iota` arithmetic and no character literals. Every recorded name gets the positional counter.
- The counter advances only when a name is recorded. A spec that is skipped, or a `_` placeholder, takes no tick. Go's own `iota` counts both.
- The prefix filter looks only at the first name of a spec. Once that name matches, every other name on the spec is recorded, with or without the prefix.
- The value list is ordered alphabetically by private name, not by declaration position.

## Model

| member | source | states |
|---|---|---|
| Collector.BlockValueIsPosition | internal/generator/generator.go:92-112 | the counter starts at 0 in every block; the k-th recorded name of a block receives k; the last recording of a name wins |
| Collector.SkippedSpec | internal/generator/generator.go:96-104 | a spec that is not a value spec, has no names, or whose first name lacks the type prefix can be removed without changing the values map: it adds nothing and takes no counter tick |
| Collector.PlaceholderTakesNoTick | internal/generator/generator.go:107-112 | a `_` on a counting spec neither records anything nor advances the counter |
| Collector.PlaceholderNeverKey | internal/generator/generator.go:107-112 | starting from an empty map, `_` is never a key after any sequence of blocks |
| Collector.AllNamesOfCountingSpec | internal/generator/generator.go:101-112 | every non-`_` name on a spec whose first name has the prefix is recorded, including names without the prefix |
| Collector.OneNamePerSpec | internal/generator/generator.go:95-112 | for a block of one prefixed name per line, the recorded names are those names in declaration order |
| Collector.EmptyIffNoEntries | internal/generator/generator.go:82-86 | the values map is empty exactly when no block records a name |
| Collector.CollectBlocksKeys | internal/generator/generator.go:75-80 | the keys after the walk are the earlier keys plus every name recorded by any block |
| Collector.AssignFromOverrides | internal/generator/generator.go:109 | a block's assignments override whatever the map already held, independent of its previous contents |
| Generator.Generator.New | internal/generator/generator.go:43-56 | an empty type name fails with "type name is required"; a first character that is not lower case fails with "first letter must be lowercase (private)"; otherwise a fresh generator with an empty values map |
| Generator.Generator.SetLowerCase | internal/generator/generator.go:58-61 | sets the lower-case flag and nothing else |
| Generator.Generator.RecordNames | internal/generator/generator.go:107-112 | the names loop assigns the counter to each non-`_` name in turn and returns the counter advanced by the number recorded |
| Generator.Generator.ParseConstBlock | internal/generator/generator.go:92-114 | the new values map is the specification walk of the block from the old map, with the counter starting at 0 |
| Generator.Generator.ParseFile | internal/generator/generator.go:90-122 | every const block of the file is walked in inspection order, each with its own counter |
| Generator.Generator.ParseFiles | internal/generator/generator.go:77-79 | the files of one package are walked in order |
| Generator.Generator.Parse | internal/generator/generator.go:67-87 | a parse failure returns "failed to parse directory: ..." and changes nothing; otherwise the values map is the walk of all blocks of all packages, `pkgName` is the last package's name, and the result is "no const values found for type T" exactly when the map is empty |
| Generator.MapKeys | internal/generator/generator.go:137-139 | the collected names are the map's keys, each exactly once, in whatever order the map yields them |
| Generator.BuildValues | internal/generator/generator.go:134-155 | one value per map entry, strictly ascending by private name, each with the map's index, the public name as the title-cased type followed by the name with the prefix trimmed, and the title-cased trimmed name |
| Generator.ValueListUnique | internal/generator/generator.go:136-140 | the value list is determined by the map alone, whatever order the map is traversed in |
| Generator.Generator.Generate | internal/generator/generator.go:133-202 | the template data carries the type, the lower-case flag, the value list and the package name; the output file name, without the output directory, is the lower-cased camel-case words joined by "_" followed by "_enum.go" |
| GoStrings.SortStrings | internal/generator/generator.go:140 | the sorted list is strictly ascending in Go's string order and holds the same names |
| GoStrings.AscendingUnique | internal/generator/generator.go:140 | two strictly ascending lists with the same elements are equal |
| GoStrings.TrimPrefix | internal/generator/generator.go:146 | with the prefix present, the prefix followed by the result gives back the input; without it, the input is unchanged |
| Naming.SplitCamelCase | internal/generator/generator.go:218-241 | the loop's words are the reference split `CamelWords` |
| Naming.CamelWordsConcat | internal/generator/generator.go:218-241 | concatenating the words gives back the input |
| Naming.CamelWordsStarts | internal/generator/generator.go:232-236 | a word starts at position i > 0 exactly when a lower-case letter is followed by an upper-case one there, or an upper-case letter is followed by a lower-case one |
| Naming.CamelWordsShape | internal/generator/generator_test.go:746-765 | the empty string gives [""]; otherwise no word is empty |
| Naming.SplitCamelCaseExamples | internal/generator/generator_test.go:746-765 | "" gives [""], "internalIP" gives ["internal", "IP"], "HTTPResponseCode" gives ["HTTP", "Response", "Code"] |
| Naming.FileNameForType | internal/generator/generator.go:246-253 | the result is the lower-cased words joined by "_" followed by "_enum.go" |
| Naming.FileNameWords | internal/generator/generator.go:246-253 | the file-name words, put back together, spell the lower-cased type name |
| Naming.FileNameOfLowerCaseType | internal/generator/generator.go:246-253 | a type name without upper-case letters gives that name followed by "_enum.go" |
| Naming.JobStatusFileName | internal/generator/generator_test.go:767-782 | "jobStatus" splits into ["job", "Status"], as the comment on `splitCamelCase` in internal/generator/generator.go says, and gives "job_status_enum.go" |
| Naming.IsValidGoIdentifier | internal/generator/generator.go:258-275 | true exactly when the string is non-empty, starts with a letter or '_', and continues with letters, digits or '_' |
| Naming.GoIdentifierExamples | internal/generator/generator_test.go:690-708 | "" and "123abc" are refused; "abc123", "abc_123" and "_abc123" are accepted |
| Naming.PackageName | internal/generator/generator.go:157-167 | without an output path the source package is used; with one, the base name when it is a valid identifier and "enum" otherwise, so with an output path the result is always a valid identifier |
| StatusEnum.ParseStatus | _examples/status/status_enum.go:61-76 | succeeds exactly on the four names, matched exactly and case-sensitively, returning the value of that name; anything else gives `Status{}` and "invalid status: v" |
| StatusEnum.String | _examples/status/status_enum.go:16 | for every value in the table, parsing its string gives back the value with no error |
| StatusEnum.MarshalText | _examples/status/status_enum.go:19-21 | never fails, and for every value in the table what it writes parses back to the same value |
| StatusEnum.DriverValue | _examples/status/status_enum.go:31-33 | returns the name and no error |
| StatusEnum.MustStatus | _examples/status/status_enum.go:79-85 | returns the value exactly on the four names and panics with the parse error otherwise |
| StatusEnum.StatusVar.UnmarshalText | _examples/status/status_enum.go:24-28 | always assigns the receiver: the value of the name, or `Status{}` together with the error |
| StatusEnum.StatusVar.Scan | _examples/status/status_enum.go:36-58 | nil assigns `StatusValues()[0]`; a string or bytes is parsed and assigned only on success; on a parse error or on any other kind of value the receiver is unchanged and the error says why |
| StatusEnum.TextRoundTrip | _examples/status/status_enum.go:19-28 | unmarshalling what `MarshalText` wrote gives back every table value with no error |
| StatusEnum.StatusIter | _examples/status/status_enum.go:121-129 | the values yielded are a prefix of `StatusValues()` in order; every call but the last returned true; the iteration stops early only right after a call that returned false |
| StatusEnum.CollectAll | _examples/status/status_test.go:103-110 | a consumer that always continues sees all of `StatusValues()` |
| StatusEnum.FirstTwo | _examples/status/status_test.go:112-120 | a consumer that stops after two values sees `StatusValues()[:2]` |
| StatusEnum.NamesMatchValues | _examples/status/status_enum.go:95-113 | the two tables have equal length, and the i-th name is the string of the i-th value |
| StatusEnum.ValuesDistinct | _examples/status/status_enum.go:88-93 | the four constants carry the numbers 0 to 3, pairwise distinct |
| StatusEnum.TablesAlphabetical | _examples/status/status_enum.go:95-113 | the names are strictly ascending, so `StatusValues()[0]` is `StatusActive` |
| StatusGeneration.StatusBlockValues | _examples/status/status.go:7-12 | the walk of the example's const block numbers statusUnknown, statusActive, statusInactive and statusBlocked 0 to 3 |
| StatusGeneration.GeneratedListMatchesStatusValues | _examples/status/status_enum.go:88-103 | the value list generated from the example has the order and the numbers of `StatusValues()`, and its trimmed, lower-cased names are the names there |
| StatusGeneration.StatusFileName | _examples/status/status.go:3 | the example type's output file is "status_enum.go" |
| StatusGeneration.ParseStatusPackage | _examples/status/status.go:3-12 | on the example package neither `New("status", "")` nor `Parse` returns an error, and after `-lower` the generator holds the four values and the package name "status" |
| StatusGeneration.GenerateStatus | _examples/status/status.go:3 | end to end on the example package: package "status", lower-case on, file "status_enum.go", and a value list matching `StatusValues()` |

## Left out

- Go parsing and AST traversal (`parser.ParseDir`, `ast.Inspect`): the input is a given sequence of packages, files, blocks and specs, or a parse failure with its message. The order in which Go's maps yield packages and files is not deterministic, so it is a given order here.
- Template rendering, `format.Source`, `os.MkdirAll` and `os.WriteFile`: these are I/O and library text generation. `Generate` stops at the template data and the output file name, and their error returns are not modelled.
- `filepath.Base`: the base name of the output path is a parameter.
- `filepath.Join`: `Generate` returns the output file name alone; joining it to the output directory is path handling and is not modelled.
- The title caser from golang.org/x/text: it is a function parameter `title` and is not interpreted.
- Unicode classification: `unicode.IsLower`, `IsUpper`, `IsLetter`, `IsDigit` and `strings.ToLower` are restricted to ASCII letters and digits. `splitCamelCase` peeks at the byte after a rune, which matches rune behaviour only for ASCII input.
- Go's `[]byte`: it is the string it converts to and from.
- StatusEnum.DriverValue: `driver.Value` is a foreign interface; the model states only that the name is returned.
- The value of `Scan`'s non-string, non-bytes argument appears only as its `%v` rendering.
- `main.go`: flag parsing and `os.Exit` are not part of this model.
- Explicit constant values, `iota` arithmetic and character literals: the modelled code does not evaluate them, so such expressions get the positional counter like any other name.
- Integer width: the counter is an unbounded integer. Go's `int` cannot overflow on realistic inputs.
