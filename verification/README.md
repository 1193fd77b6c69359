# DoomerPublish document tooling, modelled in Dafny

DoomerPublish prepares ACS script libraries and DECORATE actor files of a Doom
mod for release. This project models the core of that tool:

- **Documents.** `AcsFile` and `DecorateFile` hold a file's name, folder and
  content. They also hold the facts the parsers extract: libdefines, enum
  libdefines, methods, todos, the library name, the namespace, actors and the
  included files. The `IFileContext` view (`FileView`) is what the todo list
  walks. Loading a file from a path either yields a fresh document or
  `FileNotFoundException`.
- **Fact extractors.** The enum, method, `#libdefine`, `#library`,
  `namespace`, actor, `@todo` and `#include` parsers each overwrite one or two
  fields of a document. Where the repository keeps two or three copies of a
  parser, every copy is modelled: the two enum parsers differ (only the newer
  strips casts), and the include paths differ (only ACS drops `zcommon`).
- **Parse orchestrators.** `AcsParseService` and `DecorateParseService` run
  an ordered task list on a file, then visit its included files depth-first.
  The ACS root also gets the `#library` task. A failing task is wrapped with
  its name and aborts the rest.
- **Serialisers.** Four writers walk the parsed include tree in pre-order and
  append to a `StringBuilder`:
  - the public ACS stub;
  - the DECORATE summary, with its sorted doomednum list;
  - the todo report;
  - the packed DECORATE file, with its line filter and the deletion of every
    packed file.
- **Publisher.** The configuration getters map option strings to compiler
  and engine types. The publisher loop runs the 15 tasks of the tool (16 in
  the console publisher) until the first failure, keeping `RunningTask` and
  `FinishedTasks` up to date.

Documents are values of a `datatype`. Each extractor takes a document and
returns a `Step`: the document after the update, plus the exception it
raised, if any. A document that a failing extractor left half-updated is kept,
as in the source. The string buffers, the doomednum list, the file store of
the packer and the publish context are classes whose methods update them in
place. Each such method is proved against a specification function.

The .NET regular expressions are not re-implemented. Each extractor receives
the list of matches, with their optional group captures and indices, and the
model verifies what the code does with them. The fixed-prefix directives
(`#libdefine`, `#library`) and the packer's line filter have hand-written
scanners. For the packer's filter, `PackDecorate.CommentScannerMatchesPattern`
and `PackDecorate.IncludeScannerMatchesPattern` prove each scanner equivalent
to a declarative reading of its pattern.

Files, one module each: `common.dfy`, `text.dfy` (the .NET string calls used),
`file_system.dfy`, `file_context.dfy`, `acs_context.dfy`,
`decorate_context.dfy`, `project_context.dfy`, `buffers.dfy`, one file per
extractor, `acs_parse_service.dfy`, `decorate_parse_service.dfy`,
`public_acs.dfy`, `decorate_summary.dfy`, `todo_list.dfy`,
`pack_decorate.dfy`, `publisher_configuration.dfy` and
`publisher_service.dfy`.

## Model

| member | source | states |
|---|---|---|
| AcsContext.FromPath | src/DoomerPublish/DoomerPublish.lib/Tools/AcsParseService/AcsContext.cs:74-91 | a missing path gives `FileNotFound` before anything is read; otherwise the name is the path's file name, the folder its directory (a missing directory is an error), the content the file text, and every derived field starts unset |
| AcsContext.View | src/DoomerPublish/DoomerPublish.lib/Tools/AcsParseService/AcsContext.cs:72 | the `IFileContext` view has the same name, folder, content and todos; its included contexts are unset exactly when `IncludedFiles` is, and otherwise are the views of the same files in the same order |
| AcsContext.ViewAll | src/DoomerPublish/DoomerPublish.lib/Tools/AcsParseService/AcsContext.cs:60-72 | a list of files is viewed element by element, keeping length and order |
| AcsContext.WalkVisitsChild | src/DoomerPublish/DoomerPublish.lib/Tools/AcsParseService/AcsContext.cs:67 | a pre-order walk emits a file's own part, then the whole walks of the children before child `i`, then child `i`'s walk, then the rest |
| DecorateContext.FromPath | src/DoomerPublish/DoomerPublish.lib/Tools/DecorateParseService/DecorateContext.cs:31-48 | a missing path gives `FileNotFound`; otherwise name, folder and content come from the path and the file text, and actors, todos and includes start unset |
| DecorateContext.View | src/DoomerPublish/DoomerPublish.lib/Tools/DecorateParseService/DecorateContext.cs:29 | the view mirrors `IncludedFiles`: unset exactly when it is unset, otherwise the same files in the same order |
| DecorateContext.ViewAll | src/DoomerPublish/DoomerPublish.lib/Tools/DecorateParseService/DecorateContext.cs:20-29 | a list of files is viewed element by element, keeping length and order |
| EnumParser.IntegerTypeTestsAgree | src/DoomerPublish/DoomerPublish/Service/Tools/AcsParseService/Parse/EnumParser.cs:44-46 | the newer test (empty, or equal to `int` ignoring case) and the older one (empty, or upper-cases to `INT`) accept the same enum types |
| EnumParser.CleanLine | src/DoomerPublish/DoomerPublish/Service/Tools/AcsParseService/Parse/EnumParser.cs:72-80 | a cleaned line is trimmed and never longer than the line; a line whose last character is `,` loses that one comma and is then trimmed, any other line is just trimmed |
| EnumParser.FilterEnumContent | src/DoomerPublish/DoomerPublish/Service/Tools/AcsParseService/Parse/EnumParser.cs:64-83 | the filtered body has at most as many lines as the content split on line breaks |
| EnumParser.FilterLinesKeepsAcceptedLines | src/DoomerPublish/DoomerPublish/Service/Tools/AcsParseService/Parse/EnumParser.cs:67-71 | every line that is neither blank nor a `//` comment after trimming survives, cleaned |
| EnumParser.FilterLinesAppend | src/DoomerPublish/DoomerPublish.lib/Tools/AcsParseService/Parse/Default/DefaultEnumParser.cs:62-81 | filtering works line by line: filtering a concatenation concatenates the filtered parts, so order is kept |
| EnumParser.Increment | src/DoomerPublish/DoomerPublish/Service/Tools/AcsParseService/Parse/EnumParser.cs:124 | the counter increment stays within Int32 and adds one except at `int.MaxValue`, where it wraps |
| EnumParser.Classify | src/DoomerPublish/DoomerPublish/Service/Tools/AcsParseService/Parse/EnumParser.cs:91-146 | a line is rejected exactly when it has two or more `=`, or has none in a non-integer block, with the matching error; only integer blocks give implicit, explicit or unparseable-number lines, and an explicit value is an Int32 |
| EnumParser.EnumerateFilteredEnumLines | src/DoomerPublish/DoomerPublish/Service/Tools/AcsParseService/Parse/EnumParser.cs:85-148 | the counter loop produces exactly the entries and error of the specification `EnumerateLines` |
| EnumParser.EnumerateShapesOutcome | src/DoomerPublish/DoomerPublish/Service/Tools/AcsParseService/Parse/EnumParser.cs:89-147 | the run fails exactly when some line is rejected; it then stops at the first rejected line with that line's error, having emitted one entry per earlier line; otherwise there is one entry per line |
| EnumParser.EnumerateLinesOutcome | src/DoomerPublish/DoomerPublish/Service/Tools/AcsParseService/Parse/EnumParser.cs:89-95 | the same, stated on the filtered lines: success iff every line has at most one `=` (exactly one in a non-integer block), one entry per line, the error names the first bad line |
| EnumParser.ImplicitLine | src/DoomerPublish/DoomerPublish/Service/Tools/AcsParseService/Parse/EnumParser.cs:119-128 | a line without `=` in an integer block takes the counter, with its trimmed key |
| EnumParser.ExplicitLine | src/DoomerPublish/DoomerPublish/Service/Tools/AcsParseService/Parse/EnumParser.cs:130-138 | `key=n` with `n` an Int32 is an explicit line whose key is the untrimmed text before `=` |
| EnumParser.ImplicitValuesCountUp | src/DoomerPublish/DoomerPublish/Service/Tools/AcsParseService/Parse/EnumParser.cs:119-127 | implicit lines get consecutive numbers from the counter |
| EnumParser.ImplicitBlockNumbersFromZero | src/DoomerPublish/DoomerPublish/Service/Tools/AcsParseService/Parse/EnumParser.cs:88 | a block of implicit lines is numbered 0, 1, 2, ... with trimmed keys |
| EnumParser.ExplicitValueThenImplicits | src/DoomerPublish/DoomerPublish/Service/Tools/AcsParseService/Parse/EnumParser.cs:131-137 | after `k = n` the next implicit member gets `n` again and the one after it `n + 1` |
| EnumParser.CounterWrapsAround | src/DoomerPublish/DoomerPublish/Service/Tools/AcsParseService/Parse/EnumParser.cs:124 | after `k = 2147483647` two implicit members get `2147483647` and then `-2147483648` |
| EnumParser.UnparseableValueResetsCounter | src/DoomerPublish/DoomerPublish/Service/Tools/AcsParseService/Parse/EnumParser.cs:130-146 | an unparseable value is emitted verbatim (trimmed) and the failed `TryParse` resets the counter, so the next implicit member gets 0 |
| EnumParser.VersionsAgreeOnIntegerBlocks | src/DoomerPublish/DoomerPublish.lib/Tools/AcsParseService/Parse/Default/DefaultEnumParser.cs:83-144 | in integer blocks the older parser, without cast stripping, produces the same entries and error as the newer one |
| EnumParser.ValuedLine | src/DoomerPublish/DoomerPublish/Service/Tools/AcsParseService/Parse/EnumParser.cs:96-116 | in a non-integer block `key=value` keeps the trimmed key and the trimmed value, with the casts stripped only by the current copy |
| EnumParser.ValuedBlockEntries | src/DoomerPublish/DoomerPublish/Service/Tools/AcsParseService/Parse/EnumParser.cs:99-116 | a non-integer block whose every line has one `=` never throws and yields one constant per line, in order, whatever the counter |
| EnumParser.ClassifyStripped | src/DoomerPublish/DoomerPublish.lib/Tools/AcsParseService/Parse/Default/DefaultEnumParser.cs:98-113 | on a non-integer line the older copy classifies alike and keeps the value verbatim where the current copy strips its casts |
| EnumParser.VersionsOnValuedBlocks | src/DoomerPublish/DoomerPublish.lib/Tools/AcsParseService/Parse/Default/DefaultEnumParser.cs:98-113 | in non-integer blocks both copies throw alike and keep the same keys; the current copy's values are the older copy's values with the casts stripped |
| EnumParser.CastStrippedOnlyByCurrentCopy | src/DoomerPublish/DoomerPublish/Service/Tools/AcsParseService/Parse/EnumParser.cs:107 | `A = (int)5` in a non-integer block is kept as `5` by the current copy and as `(int)5` by the older copy |
| EnumParser.TrimCasting | src/DoomerPublish/DoomerPublish/Service/Tools/AcsParseService/Parse/EnumParser.cs:153-160 | removing `(string)`, `(int)` and `(fixed)` never lengthens the value, and leaves a value without `(` unchanged |
| EnumParser.EnumsParsed | src/DoomerPublish/DoomerPublish.lib/Tools/AcsParseService/Parse/Default/DefaultEnumParser.cs:28-60 | only `EnumLibdefines` changes, and it is always assigned a fresh list |
| EnumParser.EnumsParsedIdempotent | src/DoomerPublish/DoomerPublish/Service/Tools/AcsParseService/Parse/EnumParser.cs:32 | running the extractor twice on the same content gives the same result as running it once |
| EnumParser.EnumBlocksErrors | src/DoomerPublish/DoomerPublish/Service/Tools/AcsParseService/Parse/EnumParser.cs:91-106 | the only exceptions raised are the part-count and missing-value errors |
| EnumParser.PrivateBlockIgnored | src/DoomerPublish/DoomerPublish/Service/Tools/AcsParseService/Parse/EnumParser.cs:36-42 | removing a block matched with `private` changes neither the entries nor the error |
| EnumParser.ParseBlock | src/DoomerPublish/DoomerPublish/Service/Tools/AcsParseService/Parse/EnumParser.cs:44-53 | one block's entries and error are those of the specification `BlockEntries` |
| EnumParser.ParseEnums | src/DoomerPublish/DoomerPublish/Service/Tools/AcsParseService/Parse/EnumParser.cs:29-62 | the loop over the blocks gives exactly the specification `EnumsParsed`: entries of earlier blocks are kept when a later block throws |
| MethodParser.ParameterTypeFromString | src/DoomerPublish/DoomerPublish.lib/Tools/AcsParseService/Parse/Default/DefaultMethodParser.cs:170-182 | the mapping is total and case-insensitive: the six type tokens map to the type of that name, anything else to `special` |
| MethodParser.ParameterTypeIgnoresCase | src/DoomerPublish/DoomerPublish.lib/Tools/AcsParseService/Parse/Default/DefaultMethodParser.cs:172 | tokens equal ignoring case map to the same type |
| MethodParser.ParameterTypeNameRoundTrip | src/DoomerPublish/DoomerPublish.lib/Tools/AcsParseService/Parse/Default/DefaultMethodParser.cs:174-180 | every type is read back from its own name, `special` included |
| MethodParser.ParseParameter | src/DoomerPublish/DoomerPublish.lib/Tools/AcsParseService/Parse/Default/DefaultMethodParser.cs:197-222 | a piece parses exactly when it has two space-separated parts, giving `{type, name}` in order |
| MethodParser.ParameterRoundTrip | src/DoomerPublish/DoomerPublish.lib/Tools/AcsParseService/Parse/Default/DefaultMethodParser.cs:218-222 | `type name` parses back to that type and name |
| MethodParser.FourPartParameterThrows | src/DoomerPublish/DoomerPublish.lib/Tools/AcsParseService/Parse/Default/DefaultMethodParser.cs:203-216 | a four-part piece always throws: with a fourth part other than `=` it is the optional-parameter error, otherwise the truncation to one part gives the part-count error |
| MethodParser.DefaultValueParameterThrows | src/DoomerPublish/DoomerPublish.lib/Tools/AcsParseService/Parse/Default/DefaultMethodParser.cs:203-211 | so `type name = default` never parses |
| MethodParser.ParseMethodParameters | src/DoomerPublish/DoomerPublish.lib/Tools/AcsParseService/Parse/Default/DefaultMethodParser.cs:184-224 | `void` in any case gives no list; otherwise the pieces split at `,` are trimmed and parsed, and the first failing piece fails the whole list |
| MethodParser.ParametersPerPiece | src/DoomerPublish/DoomerPublish.lib/Tools/AcsParseService/Parse/Default/DefaultMethodParser.cs:194-197 | a successful list has one parameter per comma-separated piece, in order |
| MethodParser.SummaryOf | src/DoomerPublish/DoomerPublish.lib/Tools/AcsParseService/Parse/Default/DefaultMethodParser.cs:122-128 | the summary is the trimmed capture, or unset when that is empty |
| MethodParser.ParametersOf | src/DoomerPublish/DoomerPublish.lib/Tools/AcsParseService/Parse/Default/DefaultMethodParser.cs:143-149 | an absent or empty capture gives no parameters; otherwise the trimmed capture is parsed |
| MethodParser.ModifiersOf | src/DoomerPublish/DoomerPublish.lib/Tools/AcsParseService/Parse/Default/DefaultMethodParser.cs:83-89 | an absent capture gives no modifiers; otherwise one trimmed item per space-separated part, empty items kept |
| MethodParser.ParseFunctionMatch | src/DoomerPublish/DoomerPublish.lib/Tools/AcsParseService/Parse/Default/DefaultMethodParser.cs:110-168 | missing definition, name or return type groups throw, in that order; otherwise a function record with the mapped return type, no modifiers, the public flag, summary, name and parameters from the captures |
| MethodParser.ParseScriptMatch | src/DoomerPublish/DoomerPublish.lib/Tools/AcsParseService/Parse/Default/DefaultMethodParser.cs:49-108 | missing definition or name groups throw; otherwise a script record with return type `void`, the modifiers and parameters from the captures |
| MethodParser.MethodsParsed | src/DoomerPublish/DoomerPublish.lib/Tools/AcsParseService/Parse/Default/DefaultMethodParser.cs:32-47 | `Methods` becomes all function records followed by all script records; any failing match fails the extractor and leaves the document unchanged |
| MethodParser.FunctionsBeforeScripts | src/DoomerPublish/DoomerPublish.lib/Tools/AcsParseService/Parse/Default/DefaultMethodParser.cs:37-40 | position `k` holds a function exactly when `k` is below the number of function matches |
| MethodParser.FirstFailingFunctionFails | src/DoomerPublish/DoomerPublish.lib/Tools/AcsParseService/Parse/Default/DefaultMethodParser.cs:37-40 | the first failing function match decides the raised exception |
| LibdefineParser.KeyLength | src/DoomerPublish/DoomerPublish.lib/Tools/AcsParseService/Parse/Default/DefaultLibdefineParser.cs:17 | the key is the longest run of non-whitespace characters |
| LibdefineParser.LineLength | src/DoomerPublish/DoomerPublish.lib/Tools/AcsParseService/Parse/Default/DefaultLibdefineParser.cs:17 | the value runs up to the first line feed |
| LibdefineParser.MatchAt | src/DoomerPublish/DoomerPublish.lib/Tools/AcsParseService/Parse/Default/DefaultLibdefineParser.cs:17 | a match at a position has a non-empty key without whitespace and a non-empty value without line feed |
| LibdefineParser.Scan | src/DoomerPublish/DoomerPublish.lib/Tools/AcsParseService/Parse/Default/DefaultLibdefineParser.cs:28 | every entry found in the content is well formed |
| LibdefineParser.LibdefinesParsed | src/DoomerPublish/DoomerPublish.lib/Tools/AcsParseService/Parse/Default/DefaultLibdefineParser.cs:26-47 | the extractor never fails, changes only `LibDefines`, and sets it to the scan of the file's own content |
| LibdefineParser.ScanDirectiveLine | src/DoomerPublish/DoomerPublish.lib/Tools/AcsParseService/Parse/Default/DefaultLibdefineParser.cs:17 | a `#libdefine key value` line is found, followed by the entries of the rest |
| LibdefineParser.ScanRender | src/DoomerPublish/DoomerPublish.lib/Tools/AcsParseService/Parse/Default/DefaultLibdefineParser.cs:30-39 | rendering well-formed entries as directive lines and scanning them gives back the same entries in the same order |
| LibdefineParser.CarriageReturnKeptInValue | src/DoomerPublish/DoomerPublish.lib/Tools/AcsParseService/Parse/Default/DefaultLibdefineParser.cs:17 | on a `\r\n` line the value keeps its trailing `\r` |
| LibraryParser.LetterLength | src/DoomerPublish/DoomerPublish/Service/Tools/AcsParseService/Parse/LibraryParser.cs:17 | the name is the longest run of ASCII letters |
| LibraryParser.FirstLibrary | src/DoomerPublish/DoomerPublish/Service/Tools/AcsParseService/Parse/LibraryParser.cs:28 | a found name is made of letters only |
| LibraryParser.LibraryParsed | src/DoomerPublish/DoomerPublish/Service/Tools/AcsParseService/Parse/LibraryParser.cs:26-37 | with no `#library "name"` directive the extractor throws and the file is unchanged; otherwise only `Library` changes, to the first directive's name |
| LibraryParser.NoHashNoLibrary | src/DoomerPublish/DoomerPublish/Service/Tools/AcsParseService/Parse/LibraryParser.cs:17 | content without `#` declares no library |
| LibraryParser.SkipTextWithoutHash | src/DoomerPublish/DoomerPublish/Service/Tools/AcsParseService/Parse/LibraryParser.cs:28 | text before the first `#` does not affect the result |
| LibraryParser.DirectiveFound | src/DoomerPublish/DoomerPublish.lib/Tools/AcsParseService/Parse/Default/DefaultLibraryParser.cs:22-33 | the first `#library "name"` directive after text without `#` gives `name`, in the older copy as in the newer |
| LibraryParser.NameOfDirective | src/DoomerPublish/DoomerPublish.lib/Tools/AcsParseService/Parse/Default/DefaultLibraryParser.cs:13 | the directive is matched ignoring case and the name is read up to the closing quote |
| LibraryParser.DigitEndsNoName | src/DoomerPublish/DoomerPublish/Service/Tools/AcsParseService/Parse/LibraryParser.cs:17 | a name followed by a digit is not recognised |
| NamespaceParser.DeclaredName | src/DoomerPublish/DoomerPublish/Service/Tools/AcsParseService/Parse/NamespaceParser.cs:35-41 | the namespace is the name capture, or unset when no name is given |
| NamespaceParser.NamespaceParsed | src/DoomerPublish/DoomerPublish/Service/Tools/AcsParseService/Parse/NamespaceParser.cs:23-47 | the extractor never fails; with no match the file is unchanged; otherwise only `Namespace` and `IsStrictNamespace` change, from the first match, strict iff `strict ` preceded `namespace` |
| NamespaceParser.OnlyFirstDeclarationCounts | src/DoomerPublish/DoomerPublish/Service/Tools/AcsParseService/Parse/NamespaceParser.cs:25 | later matches are ignored |
| ActorParser.ActorOf | src/DoomerPublish/DoomerPublish.lib/Tools/DecorateParseService/Parse/Default/DefaultActorParser.cs:31-48 | the definition is the whole match and the name the actor capture; the parent is the capture's value, `""` when the clause is absent; the doomednum is set exactly when the digits parse as an Int32 |
| ActorParser.ActorsParsed | src/DoomerPublish/DoomerPublish/Service/Tools/DecorateParseService/Parse/ActorParser.cs:24-56 | the extractor never fails, changes only `Actors`, and sets it to one record per match, in order |
| ActorParser.DoomednumRead | src/DoomerPublish/DoomerPublish/Service/Tools/DecorateParseService/Parse/ActorParser.cs:36 | digits of an Int32 give that doomednum |
| ActorParser.NoDigitsNoDoomednum | src/DoomerPublish/DoomerPublish/Service/Tools/DecorateParseService/Parse/ActorParser.cs:36 | an empty digit capture gives no doomednum |
| ActorParser.OverflowGivesNoDoomednum | src/DoomerPublish/DoomerPublish.lib/Tools/DecorateParseService/Parse/Default/DefaultActorParser.cs:39 | digits beyond `int.MaxValue` give no doomednum |
| TodoParser.LineAt | src/DoomerPublish/DoomerPublish.lib/Common/DefaultTodoParser.cs:53-65 | the line of a position is between 1 and the position plus one |
| TodoParser.LineFromPos | src/DoomerPublish/DoomerPublish.lib/Tools/AcsParseService/Parse/Default/DefaultTodoParser.cs:30-41 | the counting loop returns the specification `LineAt`, one plus the line feeds before the position; a position past the end is the loop's index error |
| TodoParser.LineAtMonotone | src/DoomerPublish/DoomerPublish.lib/Common/DefaultTodoParser.cs:53-65 | a later position never has a smaller line |
| TodoParser.NoLineFeedLineOne | src/DoomerPublish/DoomerPublish.lib/Common/DefaultTodoParser.cs:59 | text with no `\n` (for example `\r`-only line endings) reports line 1 throughout |
| TodoParser.TodoItemOf | src/DoomerPublish/DoomerPublish.lib/Common/DefaultTodoParser.cs:69-79 | an item's value is the raw capture and its line that of the capture's index, not of the match start; an index past the end of the content is the index error |
| TodoParser.TodoItems | src/DoomerPublish/DoomerPublish.lib/Tools/AcsParseService/Parse/Default/DefaultTodoParser.cs:43-55 | one item per match, in order |
| TodoParser.TodoLinesNondecreasing | src/DoomerPublish/DoomerPublish.lib/Common/DefaultTodoParser.cs:67-79 | along matches in text order the lines are at least 1 and never decrease |
| TodoParser.AcsTodosParsed | src/DoomerPublish/DoomerPublish.lib/Common/DefaultTodoParser.cs:28-34 | on success only `Todos` changes, to the items; on failure the file is unchanged |
| TodoParser.DecorateTodosParsed | src/DoomerPublish/DoomerPublish.lib/Common/DefaultTodoParser.cs:37-43 | the same for a DECORATE file |
| TodoParser.OverloadsAgree | src/DoomerPublish/DoomerPublish.lib/Common/DefaultTodoParser.cs:28-43 | both overloads give the same outcome and list for the same content |
| IncludeParser.Targets | src/DoomerPublish/DoomerPublish.lib/Common/DefaultIncludeParser.cs:70-82 | one target per match, the file capture, in order |
| IncludeParser.WithoutZCommon | src/DoomerPublish/DoomerPublish.lib/Common/DefaultIncludeParser.cs:31-34 | the kept targets are exactly the targets not starting with `zcommon` ignoring case |
| IncludeParser.WithoutZCommonAppend | src/DoomerPublish/DoomerPublish.lib/Tools/AcsParseService/Parse/Default/DefaultIncludeParser.cs:34-38 | the filter keeps order |
| IncludeParser.LoadAll | src/DoomerPublish/DoomerPublish.lib/Common/DefaultIncludeParser.cs:37-45 | children load in order; the first missing target stops loading with its error, and the children loaded before it are kept |
| IncludeParser.LoadIncluded | src/DoomerPublish/DoomerPublish.lib/Tools/AcsParseService/Parse/Default/DefaultIncludeParser.cs:41-50 | the foreach loop gives exactly the specification `LoadAll` |
| IncludeParser.AcsIncludesParsed | src/DoomerPublish/DoomerPublish.lib/Common/DefaultIncludeParser.cs:29-46 | only `IncludedFiles` changes; it is always set, to the non-`zcommon` targets loaded from the file's folder |
| IncludeParser.DecorateIncludesParsed | src/DoomerPublish/DoomerPublish.lib/Common/DefaultIncludeParser.cs:49-63 | only `IncludedFiles` changes; it is always set, to every target loaded from the file's folder, with no filter |
| IncludeParser.ParseAcsIncludes | src/DoomerPublish/DoomerPublish.lib/Tools/AcsParseService/Parse/Default/DefaultIncludeParser.cs:26-51 | the ACS include task gives exactly the specification `AcsIncludesParsed` |
| IncludeParser.ParseDecorateIncludes | src/DoomerPublish/DoomerPublish.lib/Tools/DecorateParseService/Parse/Default/DefaultIncludeParser.cs:24-45 | the DECORATE include task gives exactly the specification `DecorateIncludesParsed` |
| IncludeParser.AcsChildLoaded | src/DoomerPublish/DoomerPublish.lib/Common/DefaultIncludeParser.cs:39-40 | child `i` is the fresh document of `Path.Join(folder, target i)`, so its own folder is that path's directory |
| IncludeParser.DecorateChildLoaded | src/DoomerPublish/DoomerPublish.lib/Common/DefaultIncludeParser.cs:56-57 | the same for DECORATE targets, unfiltered |
| IncludeParser.AcsMissingTargetStops | src/DoomerPublish/DoomerPublish.lib/Tools/AcsParseService/Parse/Default/DefaultIncludeParser.cs:44-46 | a missing target raises `FileNotFound` for its joined path after exactly the earlier children |
| IncludeParser.DecorateMissingTargetStops | src/DoomerPublish/DoomerPublish.lib/Tools/DecorateParseService/Parse/Default/DefaultIncludeParser.cs:39-41 | the same for DECORATE |
| IncludeParser.OnlyZCommonIncludesNothing | src/DoomerPublish/DoomerPublish.lib/Tools/AcsParseService/Parse/Default/DefaultIncludeParser.cs:37-41 | a file including only `zcommon` targets gets an empty, not unset, include list |
| IncludeParser.DecorateLoadsEveryTarget | src/DoomerPublish/DoomerPublish.lib/Tools/DecorateParseService/Parse/Default/DefaultIncludeParser.cs:32-44 | when every target exists, every matched target is loaded |
| AcsParseService.TasksFor | src/DoomerPublish/DoomerPublish/Service/Tools/AcsParseService/AcsParseService.cs:60-68 | the list of parse tasks is Namespace, Method, Libdefine, Enum, Todo, Include, followed by Library only for the root; the shared list is unchanged |
| AcsParseService.RunTask | src/DoomerPublish/DoomerPublish/Service/Tools/AcsParseService/AcsParseService.cs:97-111 | no task changes name, folder or content; only the Library task changes `Library`; the Include task always sets the include list |
| AcsParseService.RunTasks | src/DoomerPublish/DoomerPublish/Service/Tools/AcsParseService/AcsParseService.cs:93-112 | running the tasks keeps the file's identity, leaves `Library` alone without the Library task, and only raises task-wrapped errors |
| AcsParseService.ParseFileWithTasks | src/DoomerPublish/DoomerPublish/Service/Tools/AcsParseService/AcsParseService.cs:97-111 | the foreach loop gives exactly the specification `RunTasks` |
| AcsParseService.ParseTree | src/DoomerPublish/DoomerPublish/Service/Tools/AcsParseService/AcsParseService.cs:56-84 | parsing a tree keeps the root's identity, leaves `Library` unset below the root, and raises only task-wrapped or include-depth errors |
| AcsParseService.MoreFuelSameTree | src/DoomerPublish/DoomerPublish/Service/Tools/AcsParseService/AcsParseService.cs:56-84 | a walk that did not hit the include-depth bound gives the same outcome with any larger bound, so it is the walk of the unbounded recursion |
| AcsParseService.MoreFuelSameChildren | src/DoomerPublish/DoomerPublish/Service/Tools/AcsParseService/AcsParseService.cs:79-83 | the same for the walk of a file's included files |
| AcsParseService.ParseChildren | src/DoomerPublish/DoomerPublish/Service/Tools/AcsParseService/AcsParseService.cs:79-83 | children are parsed in order, keeping count, identity and `Library` |
| AcsParseService.ParseFileRecursive | src/DoomerPublish/DoomerPublish/Service/Tools/AcsParseService/AcsParseService.cs:56-84 | the recursive method gives exactly the specification `ParseTree` |
| AcsParseService.ParseIncludedFiles | src/DoomerPublish/DoomerPublish/Service/Tools/AcsParseService/AcsParseService.cs:79-83 | the loop over the children gives exactly `ParseChildren`, stopping at the first failure |
| AcsParseService.ParseFile | src/DoomerPublish/DoomerPublish/Service/Tools/AcsParseService/AcsParseService.cs:43-47 | the entry point parses the root as a library |
| AcsParseService.RunTasksSplit | src/DoomerPublish/DoomerPublish/Service/Tools/AcsParseService/AcsParseService.cs:97 | running a task list is running a successful prefix and then the rest |
| AcsParseService.PrefixSucceeds | src/DoomerPublish/DoomerPublish/Service/Tools/AcsParseService/AcsParseService.cs:97-111 | when a list succeeds, every prefix succeeds |
| AcsParseService.FirstFailingTaskWrapped | src/DoomerPublish/DoomerPublish/Service/Tools/AcsParseService/AcsParseService.cs:102-110 | the first failing task's exception is returned wrapped with that task's name, and no later task runs |
| AcsParseService.FailedFileSkipsChildren | src/DoomerPublish/DoomerPublish/Service/Tools/AcsParseService/AcsParseService.cs:70-83 | when a file's tasks fail, none of its children is visited |
| AcsParseService.RootLibrarySet | src/DoomerPublish/DoomerPublish/Service/Tools/AcsParseService/AcsParseService.cs:62-68 | a successful parse sets the root's `Library` to its first `#library` name |
| AcsParseService.IncludedFileLibraryUnchanged | src/DoomerPublish/DoomerPublish/Service/Tools/AcsParseService/AcsParseService.cs:81 | included files are parsed without the Library task, so their `Library` is never set |
| DecorateParseService.RunTask | src/DoomerPublish/DoomerPublish/Service/Tools/DecorateParseService/DecorateParseService.cs:73-87 | no task changes name, folder or content; each task changes only its own field; the Actor task never fails |
| DecorateParseService.RunTasks | src/DoomerPublish/DoomerPublish/Service/Tools/DecorateParseService/DecorateParseService.cs:69-88 | running the tasks keeps identity and raises only task-wrapped errors |
| DecorateParseService.ParseFileWithTasks | src/DoomerPublish/DoomerPublish/Service/Tools/DecorateParseService/DecorateParseService.cs:73-87 | the foreach loop gives exactly the specification `RunTasks` |
| DecorateParseService.ParseTree | src/DoomerPublish/DoomerPublish/Service/Tools/DecorateParseService/DecorateParseService.cs:44-60 | every file gets the same task list, then its children in order; only task-wrapped or include-depth errors arise |
| DecorateParseService.MoreFuelSameTree | src/DoomerPublish/DoomerPublish/Service/Tools/DecorateParseService/DecorateParseService.cs:44-60 | a walk that did not hit the include-depth bound gives the same outcome with any larger bound |
| DecorateParseService.MoreFuelSameChildren | src/DoomerPublish/DoomerPublish/Service/Tools/DecorateParseService/DecorateParseService.cs:55-59 | the same for the walk of a file's included files |
| DecorateParseService.ParseChildren | src/DoomerPublish/DoomerPublish/Service/Tools/DecorateParseService/DecorateParseService.cs:55-59 | children are parsed in order, keeping count and identity |
| DecorateParseService.ParseFileRecursive | src/DoomerPublish/DoomerPublish/Service/Tools/DecorateParseService/DecorateParseService.cs:44-60 | the recursive method gives exactly the specification `ParseTree` |
| DecorateParseService.ParseIncludedFiles | src/DoomerPublish/DoomerPublish/Service/Tools/DecorateParseService/DecorateParseService.cs:55-59 | the loop over the children gives exactly `ParseChildren` |
| DecorateParseService.ParseFile | src/DoomerPublish/DoomerPublish/Service/Tools/DecorateParseService/DecorateParseService.cs:31-35 | the entry point parses the root tree |
| DecorateParseService.RunTasksSplit | src/DoomerPublish/DoomerPublish/Service/Tools/DecorateParseService/DecorateParseService.cs:73 | running a task list is running a successful prefix and then the rest |
| DecorateParseService.FirstFailingTaskWrapped | src/DoomerPublish/DoomerPublish/Service/Tools/DecorateParseService/DecorateParseService.cs:78-86 | the first failing task's exception is wrapped with its name and aborts the rest |
| DecorateParseService.FailedFileSkipsChildren | src/DoomerPublish/DoomerPublish/Service/Tools/DecorateParseService/DecorateParseService.cs:46-59 | when a file's tasks fail, its children are not visited |
| DecorateParseService.ParsedFileHasAllLists | src/DoomerPublish/DoomerPublish/Service/Tools/DecorateParseService/DecorateParseService.cs:23-28 | after the Actor, Todo and Include tasks succeed, actors, todos and includes are all set |
| PublicAcs.RenderedType | src/DoomerPublish/DoomerPublishTool/Service/PublisherService/PublishTasks/GeneratePublicAcsSourceTask.cs:180-183 | `fixed`, `raw` and `special` render as `int`; other types print their own name; only `void`, `int`, `bool` and `str` appear |
| PublicAcs.ParameterTypesKnown | src/DoomerPublish/DoomerPublishTool/Service/PublisherService/PublishTasks/GeneratePublicAcsSourceTask.cs:200-209 | every parameter renders as one of the four ACC types and its name |
| PublicAcs.PublicAcs | src/DoomerPublish/DoomerPublishTool/Service/PublisherService/PublishTasks/GeneratePublicAcsSourceTask.cs:94-132 | no library name throws; otherwise the text starts with the header and `#library "name"`, and for a name of letters scanning it for `#library` finds that name |
| PublicAcs.HeadDeclaresLibrary | src/DoomerPublish/DoomerPublishTool/Service/PublisherService/PublishTasks/GeneratePublicAcsSourceTask.cs:101-108 | for a name of letters, the first `#library` directive of the output is that name, since the header has no `#` |
| PublicAcs.Stub | src/DoomerPublish/DoomerPublishTool/Service/PublisherService/PublishTasks/GeneratePublicAcsSourceTask.cs:104-129 | the stub starts with its head |
| PublicAcs.AppendLibdefines | src/DoomerPublish/DoomerPublishTool/Service/PublisherService/PublishTasks/GeneratePublicAcsSourceTask.cs:137-143 | the loop appends one `#libdefine K V` line per entry, in order |
| PublicAcs.AppendEnumLibdefines | src/DoomerPublish/DoomerPublishTool/Service/PublisherService/PublishTasks/GeneratePublicAcsSourceTask.cs:160-166 | the loop appends one line per entry with the key upper-cased |
| PublicAcs.AppendPublicMethods | src/DoomerPublish/DoomerPublishTool/Service/PublisherService/PublishTasks/GeneratePublicAcsSourceTask.cs:188-223 | the loop appends each public method's summary and declaration, in order |
| PublicAcs.InsertLibdefines | src/DoomerPublish/DoomerPublishTool/Service/PublisherService/PublishTasks/GeneratePublicAcsSourceTask.cs:134-155 | the buffer gains the libdefine lines of a pre-order walk of the include tree |
| PublicAcs.InsertEnumLibdefines | src/DoomerPublish/DoomerPublishTool/Service/PublisherService/PublishTasks/GeneratePublicAcsSourceTask.cs:157-178 | the buffer gains the enum lines of a pre-order walk |
| PublicAcs.InsertPublicMethods | src/DoomerPublish/DoomerPublishTool/Service/PublisherService/PublishTasks/GeneratePublicAcsSourceTask.cs:185-235 | the buffer gains the method entries of a pre-order walk |
| PublicAcs.GeneratePublicAcsForLibrary | src/DoomerPublish/DoomerPublishTool/Service/PublisherService/PublishTasks/GeneratePublicAcsSourceTask.cs:94-132 | the builder code produces exactly the specification `PublicAcs` |
| PublicAcs.PublicOnly | src/DoomerPublish/DoomerPublishTool/Service/PublisherService/PublishTasks/GeneratePublicAcsSourceTask.cs:193-196 | the kept methods are exactly the public ones |
| PublicAcs.NonPublicMethodsOmitted | src/DoomerPublish/DoomerPublishTool/Service/PublisherService/PublishTasks/GeneratePublicAcsSourceTask.cs:193-196 | dropping non-public methods does not change the output: they never appear |
| PublicAcs.LibdefineLinesRendered | src/DoomerPublish/DoomerPublishTool/Service/PublisherService/PublishTasks/GeneratePublicAcsSourceTask.cs:141 | with a `\n` newline the libdefine lines are the directive lines the libdefine parser reads |
| PublicAcs.LibdefineSectionReadBack | src/DoomerPublish/DoomerPublishTool/Service/PublisherService/PublishTasks/GeneratePublicAcsSourceTask.cs:134-155 | scanning the libdefine section gives back every libdefine of the tree, in pre-order |
| DecorateSummary.OwnDoomedNumsExact | src/DoomerPublish/DoomerPublishConsole/Service/PublisherService/PublishTasks/GenerateDecorateSummaryTask.cs:112-119 | a file contributes `n` exactly when one of its actors has doomednum `n` |
| DecorateSummary.GetDoomedNums | src/DoomerPublish/DoomerPublishConsole/Service/PublisherService/PublishTasks/GenerateDecorateSummaryTask.cs:110-131 | the list gains the doomednums of a pre-order walk, duplicates kept |
| DecorateSummary.DoomedNumsInWalkOrder | src/DoomerPublish/DoomerPublishConsole/Service/PublisherService/PublishTasks/GenerateDecorateSummaryTask.cs:114-129 | those are the doomednums of the walk's actors, in walk order |
| DecorateSummary.InsertSorted | src/DoomerPublish/DoomerPublishConsole/Service/PublisherService/PublishTasks/GenerateDecorateSummaryTask.cs:140 | inserting into an ascending list keeps it ascending and adds exactly the one element |
| DecorateSummary.Order | src/DoomerPublish/DoomerPublishConsole/Service/PublisherService/PublishTasks/GenerateDecorateSummaryTask.cs:140 | the ordered list is ascending and a permutation of the input |
| DecorateSummary.OrderKeepsMembers | src/DoomerPublish/DoomerPublishConsole/Service/PublisherService/PublishTasks/GenerateDecorateSummaryTask.cs:140-150 | ordering neither adds nor drops a value |
| DecorateSummary.DoomedNumsText | src/DoomerPublish/DoomerPublishConsole/Service/PublisherService/PublishTasks/GenerateDecorateSummaryTask.cs:133-154 | the doomednum section is empty exactly when there is no doomednum |
| DecorateSummary.InsertDecorateDoomedNums | src/DoomerPublish/DoomerPublishConsole/Service/PublisherService/PublishTasks/GenerateDecorateSummaryTask.cs:133-154 | the buffer gains the title, one `// n` line per value in ascending order and a blank line, or nothing for an empty list |
| DecorateSummary.DoomedNumListedIffSomeActorHasIt | src/DoomerPublish/DoomerPublishConsole/Service/PublisherService/PublishTasks/GenerateDecorateSummaryTask.cs:72-78 | `n` is listed exactly when some actor of the walked trees has doomednum `n` |
| DecorateSummary.ActorLine | src/DoomerPublish/DoomerPublishConsole/Service/PublisherService/PublishTasks/GenerateDecorateSummaryTask.cs:163-178 | each actor line starts with `// ` and the actor's name |
| DecorateSummary.ActorDefinition | src/DoomerPublish/DoomerPublishConsole/Service/PublisherService/PublishTasks/GenerateDecorateSummaryTask.cs:163-176 | the per-actor builder gives the actor line without its newline |
| DecorateSummary.AppendActorLines | src/DoomerPublish/DoomerPublishConsole/Service/PublisherService/PublishTasks/GenerateDecorateSummaryTask.cs:159-180 | the loop appends one line per actor, in order |
| DecorateSummary.InsertDecorateSummary | src/DoomerPublish/DoomerPublishConsole/Service/PublisherService/PublishTasks/GenerateDecorateSummaryTask.cs:156-192 | the buffer gains the actor lines of a pre-order walk |
| DecorateSummary.ActorLinesInWalkOrder | src/DoomerPublish/DoomerPublishConsole/Service/PublisherService/PublishTasks/GenerateDecorateSummaryTask.cs:156-192 | those are the lines of the walk's actors, in walk order |
| DecorateSummary.ActorLinesEmptyIffNoActors | src/DoomerPublish/DoomerPublishConsole/Service/PublisherService/PublishTasks/GenerateDecorateSummaryTask.cs:85-89 | the actor section is empty exactly when no walked file has an actor |
| DecorateSummary.Summary | src/DoomerPublish/DoomerPublishConsole/Service/PublisherService/PublishTasks/GenerateDecorateSummaryTask.cs:61-91 | no roots gives nothing; otherwise nothing exactly when both sections are empty, else the header, two newlines, the doomednum section and the actor lines |
| DecorateSummary.GenerateDecorateSummaryForProject | src/DoomerPublish/DoomerPublishConsole/Service/PublisherService/PublishTasks/GenerateDecorateSummaryTask.cs:61-106 | the builder code produces exactly the specification `Summary` |
| TodoList.Locate | src/DoomerPublish/DoomerPublishTool/Service/PublisherService/PublishTasks/GenerateTodoListTask.cs:120-127 | each todo is paired with its file's joined path, in order |
| TodoList.AppendTodos | src/DoomerPublish/DoomerPublishTool/Service/PublisherService/PublishTasks/GenerateTodoListTask.cs:121-127 | the loop appends one entry per todo, in order |
| TodoList.InsertTodos | src/DoomerPublish/DoomerPublishTool/Service/PublisherService/PublishTasks/GenerateTodoListTask.cs:115-140 | the buffer gains the entries of a pre-order walk over the included contexts |
| TodoList.InsertTodoTrees | src/DoomerPublish/DoomerPublishTool/Service/PublisherService/PublishTasks/GenerateTodoListTask.cs:86-89 | the loop over the root files appends each root's walk in turn |
| TodoList.EntriesInWalkOrder | src/DoomerPublish/DoomerPublishTool/Service/PublisherService/PublishTasks/GenerateTodoListTask.cs:115-140 | the report body lists the located todos of the walk in walk order; files without todos add nothing but their includes are still walked |
| TodoList.ContextFiles | src/DoomerPublish/DoomerPublishTool/Service/PublisherService/PublishTasks/GenerateTodoListTask.cs:69-75 | there is one root view per ACS root library and one per DECORATE root file |
| TodoList.AcsTodosFirst | src/DoomerPublish/DoomerPublishTool/Service/PublisherService/PublishTasks/GenerateTodoListTask.cs:69-75 | the todos of ACS roots are reported before those of DECORATE roots |
| TodoList.EntryIsThreeLines | src/DoomerPublish/DoomerPublishTool/Service/PublisherService/PublishTasks/GenerateTodoListTask.cs:123-126 | each entry is three lines (the trimmed value, the `At "path:line"` line and a blank line) when the value and path hold no line feed |
| TodoList.EntriesEmptyIffNoTodos | src/DoomerPublish/DoomerPublishTool/Service/PublisherService/PublishTasks/GenerateTodoListTask.cs:91-95 | the body is empty exactly when there is no todo |
| TodoList.TodoReport | src/DoomerPublish/DoomerPublishTool/Service/PublisherService/PublishTasks/GenerateTodoListTask.cs:66-111 | no report exactly when the body is empty; otherwise the header, two newlines and the body, at `todo_<project>.g.txt` in the output folder |
| TodoList.GenerateTodoListForProject | src/DoomerPublish/DoomerPublishTool/Service/PublisherService/PublishTasks/GenerateTodoListTask.cs:66-111 | the builder code produces exactly the specification `TodoReport` |
| TodoList.RunTodoListTask | src/DoomerPublish/DoomerPublishTool/Service/PublisherService/PublishTasks/GenerateTodoListTask.cs:46-64 | cancellation or an empty or absent output folder returns before any work; a missing project context throws; otherwise the result is exactly `TodoReport` for that folder and project |
| PackDecorate.LeadingSpace | src/DoomerPublish/DoomerPublishTool/Service/PublisherService/PublishTasks/PackDecorateTask.cs:37 | the leading run of whitespace |
| PackDecorate.CommentScannerMatchesPattern | src/DoomerPublish/DoomerPublishTool/Service/PublisherService/PublishTasks/PackDecorateTask.cs:37 | the comment scanner accepts a line exactly when the comment-or-blank pattern matches it: blank, `//` or a `/* ... */` of restricted characters after whitespace |
| PackDecorate.IncludeScannerMatchesPattern | src/DoomerPublish/DoomerPublishTool/Service/PublisherService/PublishTasks/PackDecorateTask.cs:42 | the include scanner accepts a line exactly when some `#include "path"` span occurs in it, ignoring case |
| PackDecorate.KeptLinesExact | src/DoomerPublish/DoomerPublishTool/Service/PublisherService/PublishTasks/PackDecorateTask.cs:130-133 | the kept lines are exactly the trimmed lines that are neither comment, blank nor include lines |
| PackDecorate.KeptLineShape | src/DoomerPublish/DoomerPublishTool/Service/PublisherService/PublishTasks/PackDecorateTask.cs:105-107 | a kept line, trimmed, is non-empty, trimmed, not a `//` line and holds no include |
| PackDecorate.PackedText | src/DoomerPublish/DoomerPublishTool/Service/PublisherService/PublishTasks/PackDecorateTask.cs:105-111 | a file's packed text ends with a newline |
| PackDecorate.AppendJoin | src/DoomerPublish/DoomerPublishTool/Service/PublisherService/PublishTasks/PackDecorateTask.cs:109-110 | the buffer gains the parts joined by the separator |
| PackDecorate.FileStore.Delete | src/DoomerPublish/DoomerPublishTool/Service/PublisherService/PublishTasks/PackDecorateTask.cs:116 | only that path is removed from the store |
| PackDecorate.RecursiveProcessDecorateFile | src/DoomerPublish/DoomerPublishTool/Service/PublisherService/PublishTasks/PackDecorateTask.cs:103-128 | the buffer gains the packed text of a pre-order walk and every visited file is deleted |
| PackDecorate.Packed | src/DoomerPublish/DoomerPublishTool/Service/PublisherService/PublishTasks/PackDecorateTask.cs:71-99 | no roots gives nothing; otherwise nothing exactly when the packed text is empty, else the header, two newlines and the text, at `decorate.g.txt` in the project folder |
| PackDecorate.PackedIffRoots | src/DoomerPublish/DoomerPublishTool/Service/PublisherService/PublishTasks/PackDecorateTask.cs:89-93 | the empty-buffer branch is reached only when there is no root file |
| PackDecorate.PackDecorateForProject | src/DoomerPublish/DoomerPublishTool/Service/PublisherService/PublishTasks/PackDecorateTask.cs:71-101 | the builder code produces exactly the specification `Packed` and deletes every file of the walked trees |
| PackDecorate.RunPackDecorate | src/DoomerPublish/DoomerPublishTool/Service/PublisherService/PublishTasks/PackDecorateTask.cs:52-69 | cancellation or a disabled option returns before any work and deletes nothing; a missing project context throws and deletes nothing; otherwise the result is exactly `Packed` and every file of the walked trees is deleted from the store |
| PublisherConfiguration.CompileWithParsed | src/DoomerPublish/DoomerPublishTool/Service/PublisherService/PublisherConfiguration.cs:91-98 | `acc`, `bcc` and `gdccacc` in any case map to their compilers, `gdccc` throws, anything else or no option gives `Unknown`, so `GdccC` is never returned |
| PublisherConfiguration.EngineTypeParsed | src/DoomerPublish/DoomerPublishTool/Service/PublisherService/PublisherConfiguration.cs:100-106 | `zdoom`, `zandronum` and `eternity` in any case map to their engines; anything else, or no option, gives `Unknown` |
| PublisherConfiguration.GdccParsedDefines | src/DoomerPublish/DoomerPublishTool/Service/PublisherService/PublisherConfiguration.cs:108-110 | unset exactly when the defines option is unset; otherwise every argument is flagged with `--define ` |
| PublisherConfiguration.BccParsedDefines | src/DoomerPublish/DoomerPublishTool/Service/PublisherService/PublisherConfiguration.cs:112-114 | unset exactly when the defines option is unset; otherwise every argument is flagged with `-D ` |
| PublisherConfiguration.CompilerNameParsed | src/DoomerPublish/DoomerPublishTool/Service/PublisherService/PublisherConfiguration.cs:93-95 | each selectable compiler is parsed back from its option name |
| PublisherConfiguration.EngineNameParsed | src/DoomerPublish/DoomerPublishTool/Service/PublisherService/PublisherConfiguration.cs:102-104 | each engine is parsed back from its option name |
| PublisherConfiguration.ParsingIgnoresCase | src/DoomerPublish/DoomerPublishTool/Service/PublisherService/PublisherConfiguration.cs:91-106 | options that differ only in case parse alike |
| PublisherService.TaskLists | src/DoomerPublish/DoomerPublish/Service/DefaultPublisherService.cs:25-43 | the tool runs 15 distinct tasks; the console publisher runs the same followed by `RemoveEmptyLogfilesTask` |
| PublisherService.DoPublish | src/DoomerPublish/DoomerPublishTool/Service/PublisherService/DefaultPublisherService.cs:50-88 | a task that cannot be created throws out of the publisher; otherwise the result reports the first failing task as running, with its exception and the tasks before it finished, or every task finished and no exception |
| PublisherService.DoPublishTool | src/DoomerPublish/DoomerPublishTool/Service/PublisherService/DefaultPublisherService.cs:22-39 | the same over the tool's 15 tasks |
| PublisherService.DoPublishConsole | src/DoomerPublish/DoomerPublish/Service/DefaultPublisherService.cs:46-84 | the same over the console's 16 tasks |
| PublisherService.FailedRun | src/DoomerPublish/DoomerPublishTool/Service/PublisherService/DefaultPublisherService.cs:66-81 | in a failed run the finished tasks are exactly the tasks before the failing one, all of which ran without exception |
| PublisherService.CompletedRun | src/DoomerPublish/DoomerPublish/Service/DefaultPublisherService.cs:62-68 | a run completes exactly when every task is created and raises nothing, and then every task has finished |
| PublisherService.FinishedIsPrefix | src/DoomerPublish/DoomerPublish/Service/DefaultPublisherService.cs:62-77 | `FinishedTasks` is always a prefix of the task list, followed by the failing task when there is one |
| PublisherService.SuccessIffCompleted | src/DoomerPublish/DoomerPublish/Service/DefaultPublisherService.cs:80-83 | a result reports success exactly when every task ran |
| Text.SplitLines | src/DoomerPublish/DoomerPublish/Service/Tools/AcsParseService/Parse/EnumParser.cs:66 | splitting on `\r\n`, `\r` or `\n` gives at least one line, and no line holds a line break |
| Text.SplitLinesRejoin | src/DoomerPublish/DoomerPublish/Service/Tools/AcsParseService/Parse/EnumParser.cs:66 | the lines are exactly the text between the breaks: there is one more line than breaks, and putting the consumed breaks back between the lines gives the text again |
| Text.SplitLinesOnLineFeeds | src/DoomerPublish/DoomerPublish/Service/Tools/AcsParseService/Parse/EnumParser.cs:66 | without carriage returns, splitting into lines is splitting at `\n`, and joining the lines with `\n` gives the text back |
| Text.TryParseInt32 | src/DoomerPublish/DoomerPublish/Service/Tools/AcsParseService/Parse/EnumParser.cs:131 | a parsed value is an Int32 |
| Text.ParseFormatRoundTrip | src/DoomerPublish/DoomerPublish/Service/Tools/AcsParseService/Parse/EnumParser.cs:131-136 | every Int32 parses back from its invariant-culture decimal text |

## Left out

- Regular-expression matching. The .NET regex engine is not modelled: each extractor takes its match list as input. The hand-written scanners for `#libdefine`, `#library` and the packer's filter read the patterns as ASCII. `\w` is letters, digits and `_`, and only ASCII letters change case.
- Case mapping and whitespace. `ToUpperInvariant` and ignore-case comparisons map only ASCII letters. Whitespace is the .NET `char.IsWhiteSpace` set.
- `Environment.NewLine` is an abstract constant, either `"\n"` or `"\r\n"`. The four file headers are abstract constants whose text is not modelled. The public ACS header is only required to contain no `#`, as a block of comment lines does.
- PublicAcs.LibdefineSectionReadBack: proved only for a `"\n"` newline.
- TodoList.EntryIsThreeLines: proved only for a `"\n"` newline.
- PublicAcs.LibdefineLinesRendered: proved only for a `"\n"` newline.
- Cyclic includes. The source has no cycle check, so a cyclic include graph recurses without bound. The parse orchestrators take a `fuel` include depth instead and stop with `IncludeDepthExceeded` when it runs out. `MoreFuelSameTree` shows that any walk that does not run out agrees with every larger bound. A cyclic include graph exhausts every bound, which stands for the unbounded recursion of the source.
- I/O. Async/await, cancellation inside the extractors, logging, reading and writing files, and creating directories are not modelled.
- The file system is a map from path to text.
- Path functions. `Path.Join`, `GetFileName` and `GetDirectoryName` are uninterpreted functions passed in, and `Path.GetFullPath` is taken as the identity.
- Task bodies. Creating a task through `ActivatorUtilities` and what running it raises are inputs to the publisher loop (`creatable`, `raised`).
- The publish tasks other than the public ACS source, the todo list, the DECORATE summary and the packer are not modelled: they copy, strip, compile, zip or delete files.
- Run wrappers and output writing. The `RunAsync` wrappers of the public ACS source and DECORATE summary tasks are not modelled; the todo list and packer wrappers are. Writing one `.g.acs` file per root library, and deleting an older summary file, are not modelled either.
- PublisherConfiguration.GdccParsedDefines: `SplitArgs` is an input, since its definition is not shown.
- PublisherConfiguration.BccParsedDefines: `SplitArgs` is an input, since its definition is not shown.
- File discovery (`AcsService`, `DecorateService`, `AcsSourceFileCollectService`) and the command-line binding of the configuration are not modelled.
- The stub parse services, and the DECORATE todo parser that only throws `NotImplementedException`, are not modelled.
- EnumParser.FilterEnumContent: its own contract states only the length bound. `FilterLinesKeepsAcceptedLines` and `FilterLinesAppend` state which lines survive and that order is kept.
- EnumParser.TrimCasting: stated as a length bound and as the identity on values without `(`. The removal of each cast is not restated.
- DecorateSummary.ActorLine: its contract states only the `// Name` prefix. The parent and doomednum parts are given by `ParentPart` and `DoomedNumPart`.
- PackDecorate.PackedText: its contract states only the final newline. The kept lines are stated by `KeptLinesExact`.
- PublicAcs.Stub: its contract states only the head prefix. The order of the sections is the body of `Stub` itself.
