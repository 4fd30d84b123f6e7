# Carthage `archive` command and environment probe, modelled in Dafny

This project models two small pieces of the `carthage` command-line tool.

- **The `archive` pipeline** (`ArchiveCommand.run`). It builds one candidate
  path per supported platform: the platform's relative directory, then
  `/<framework name>`, then `.framework`. It keeps the candidates that exist,
  in platform order, and prints "Found" for each one. If none exist it fails
  with `InvalidArgument`. Otherwise it works out the output path, which
  defaults to `<framework name>.framework.zip`, hands the path and the kept
  list to the zip step, and prints "Created" once that step completes.
- **The environment probe** (`getEnvironmentVariable`, `Terminal.terminalType`,
  `Terminal.isDumb`). It looks a variable up in the process environment, and
  decides whether `TERM` names a dumb terminal, ignoring case.

Both are written as pure functions. Things outside the program become parameters:

- the process environment is a `map<string, string>`;
- the filesystem's `fileExistsAtPath` is a `set<string>` of existing paths;
- the platform list is a `seq<Platform>`, where each platform carries its relative directory;
- `zipIntoArchive` is a function parameter `(output, paths) -> Pass | Fail(error)`.

`Archive.Run` returns the command's result and an event log. Its `Found` and
`Created` entries stand for the two console lines. `ZipInvoked(output, paths)`
records the call to the zip step, so "the zip step is never called" can be
stated.

Files:

- `wrappers.dfy`: `Option`, `Result` and `Outcome`.
- `errors.dfy`: the `CarthageError` cases used here.
- `environment.dfy`: module `Environment`.
- `archive.dfy`: module `Archive`.

The operations without a contract of their own are stated through the lemmas
in the table: `Archive.ExistingPaths` (the existence filter),
`Archive.Collect` (the `reduce`), `Archive.Discovered`, `Archive.Plan`,
`Archive.Run`, `Archive.NotFoundMessage` (the `InvalidArgument` text, whose
content `Archive.NotFoundMessageNamesFramework` states), `Environment.Compare`
and `Environment.CaseInsensitiveCompare`. `Archive.AppendingPathComponent` and
`Archive.AppendingPathExtension` stand for the two Foundation path calls and are
stated through `Archive.CandidatePath`. The contracts of `Environment.LowerChar`
and `Environment.Lowercased` are the definition of ASCII lower-casing itself,
the stand-in for Foundation's case folding; `Environment.IsDumb` and
`Environment.CaseInsensitiveSameIff` state what follows from them.

The zip step's error is the command's error, passed through unchanged
(Source/carthage/Archive.swift:39). The model lets the zip step fail with any
`CarthageError`, and `Archive.RunResult` proves that exactly this error is the
run's result.

## Model

| member | source | states |
|---|---|---|
| `Archive.CandidatePath` | Source/carthage/Archive.swift:25 | the candidate for a platform is its relative directory, "/", the framework name and ".framework" |
| `Archive.Candidates` | Source/carthage/Archive.swift:24-25 | exactly one candidate per platform, the i-th being the i-th platform's candidate path |
| `Archive.CollectAppends` | Source/carthage/Archive.swift:30 | the `reduce` that appends each element to the accumulator yields the accumulator followed by the whole stream, so it neither drops nor reorders paths |
| `Archive.ExistingPathsExact` | Source/carthage/Archive.swift:26 | a path survives the existence filter if and only if it is a candidate and it exists |
| `Archive.ExistingPathsPositions` | Source/carthage/Archive.swift:24-26 | from any starting position, the kept paths are the candidates at a strictly increasing list of positions, and a position is listed exactly when its candidate exists |
| `Archive.OrderPreserved` | Source/carthage/Archive.swift:24-30 | the kept list is a subsequence of the candidate list in platform order; every existing candidate's position is kept and no other is |
| `Archive.DiscoveredIsFiltered` | Source/carthage/Archive.swift:26-30 | the list handed on after the `reduce` equals the filter's output |
| `Archive.DiscoveredExact` | Source/carthage/Archive.swift:24-30 | a path is handed on if and only if it exists and is the candidate of some platform |
| `Archive.DiscoveredEmptyIff` | Source/carthage/Archive.swift:24-32 | the handed-on list is empty exactly when no platform's candidate exists |
| `Archive.OutputPath` | Source/carthage/Archive.swift:36 | the output is "<name>.framework.zip" when the given path is empty, the given path unchanged otherwise, and never empty |
| `Archive.PlanSpec` | Source/carthage/Archive.swift:31-39 | the command zips if and only if some candidate exists; otherwise it aborts with `InvalidArgument` and the not-found text; a zip gets the resolved output path and a non-empty list of exactly the existing candidates, in filter order |
| `Archive.NotFoundMessageNamesFramework` | Source/carthage/Archive.swift:33 | the `InvalidArgument` text contains the framework name followed by ".framework" |
| `Archive.FoundEvents` | Source/carthage/Archive.swift:27-29 | one "Found" event per kept path, the k-th naming the k-th path |
| `Archive.NothingBuiltFails` | Source/carthage/Archive.swift:32-34 | with no existing candidate the run fails with `InvalidArgument`, reports nothing and never calls the zip step |
| `Archive.RunLog` | Source/carthage/Archive.swift:27-41 | the log starts with one "Found" per kept path in order; if something was found, the next entry is the single zip call with the resolved output and exactly those paths; then "Created <output>" comes if and only if the zip step completed, and nothing follows |
| `Archive.FoundOnlyForKept` | Source/carthage/Archive.swift:27-29 | a log entry is a "Found" exactly when it is one of the first as-many-as-kept entries |
| `Archive.CreatedOnlyAfterZip` | Source/carthage/Archive.swift:39-41 | every "Created" names the output path and comes directly after a zip call that completed |
| `Archive.RunResult` | Source/carthage/Archive.swift:31-41 | the run succeeds if and only if some candidate exists and the zip step completes; a zip failure is the run's error unchanged; "Created" is logged exactly on success |
| `Archive.ZipNeverEmpty` | Source/carthage/Archive.swift:32-39 | the zip step is called at most once and never with an empty path list |
| `Archive.MacOnlyExample` | Source/carthage/Archive.swift:19-45 | when the zip step completes: with Mac built and iOS not, and the default output, the zip step gets ("Foo.framework.zip", ["build/Mac/Foo.framework"]); the log is Found, zip call, Created; the run succeeds |
| `Archive.NoneBuiltExample` | Source/carthage/Archive.swift:32-34 | with nothing built the run fails with `InvalidArgument` and logs nothing |
| `Environment.GetEnvironmentVariable` | Source/carthage/Environment.swift:13-20 | success if and only if the variable is a key of the environment, including keys set to ""; the value is the environment's value; otherwise `MissingEnvironmentVariable` carries exactly the requested name |
| `Environment.TerminalType` | Source/carthage/Environment.swift:26-28 | `Some(env["TERM"])` when TERM is set, `None` otherwise; it never fails |
| `Environment.CompareSameIffEqual` | Source/carthage/Environment.swift:32 | the comparison answers `OrderedSame` if and only if the two strings are equal |
| `Environment.CompareFlip` | Source/carthage/Environment.swift:32 | a sanity property of the model's comparison, not observed by the program (which tests only for `OrderedSame`): swapping the operands swaps ascending and descending and keeps same |
| `Environment.CaseInsensitiveSameIff` | Source/carthage/Environment.swift:32 | two strings compare as the same ignoring case if and only if their ASCII lower-case forms are equal |
| `Environment.IsDumb` | Source/carthage/Environment.swift:31-33 | true if and only if TERM is set and lower-cases to "dumb"; a missing TERM gives false |
| `Environment.DumbSpellings` | Source/carthage/Environment.swift:31-33 | the TERM values that count as dumb are exactly the four-letter strings spelling "dumb" with each letter in either case |
| `Environment.IsDumbExamples` | Source/carthage/Environment.swift:13-33 | "dumb", "DUMB" and "Dumb" are dumb; "xterm-256color", "" and a missing TERM are not; a missing TERM gives `MissingEnvironmentVariable("TERM")`, and TERM set to "" succeeds with "" |

## Left out

- `zipIntoArchive` belongs to CarthageKit, which is not part of this model. It is a function parameter; only its arguments and the way its outcome is passed on are modelled.
- `fileExistsAtPath` is replaced by a set of existing paths. The filesystem itself is not modelled.
- `stringByAppendingPathComponent` and `stringByAppendingPathExtension` are plain concatenation with "/" and ".". Their path normalisation is not modelled, and the forced unwrap at Source/carthage/Archive.swift:25 is taken to succeed.
- `Platform.supportedPlatforms` and `relativePath` belong to CarthageKit, which is not part of this model. The platform list is a parameter.
- `Terminal.isTTY` (Source/carthage/Environment.swift:36-38) is a call into the C library with no logic of its own.
- `NSProcessInfo` is not modelled: the environment is passed in as a map.
- `ArchiveOptions.create` and `evaluate` (Source/carthage/Archive.swift:48-62) are option-parsing glue. The model starts from the parsed framework name and output path.
- The color options, `formatting` and `carthage.println` are not modelled. Only the order of the "Found" and "Created" events is kept, not their text.
- The `NSURL` for the output (Source/carthage/Archive.swift:37) is not modelled. The zip step receives the output path string.
- ReactiveCocoa's signals and `.wait()` are not modelled. The pipeline is one sequential pass, and the zip step's outcome is known when it returns.
- `Environment.CaseInsensitiveCompare`: folds only ASCII letters, because Foundation's Unicode case folding is not modelled. The comparison is with the ASCII word "dumb", so the model can differ from `isDumb` only for a TERM value that holds non-ASCII characters.
- Repeating the candidate-path computation gives the same string because a Dafny function is deterministic, so there is no lemma for it.
