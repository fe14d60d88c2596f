# Crop2ML model-interface extractor and soil temperature records, in Dafny

This project models two parts of the APSIM code base and proves properties about them.

The first is the Crop2ML extractor in `AMEI/Crop2ML.cs`. Given a model type and the text of its source file, `GetModelDescription` builds a `ModelUnit`, the descriptor document of a Crop2ML model unit:

- **Exogenous inputs.** For every `[Link]` field, the extractor scans the source for the uses `field.member`. It skips uses inside `//` line comments. It looks each used member up on the field's type. Every member found becomes an input named `FieldType.member`.
- **Parameters.** These are the public, declared, instance properties that have a setter.
- **Input states.** These are the non-public declared fields. Three kinds are dropped: compiler-generated backing fields, event handlers and links.
- **Outputs.** These are the input states followed by the public, declared properties without a setter.
- **Functions.** These are the declared methods that are not property or event accessors.
- **Data types.** Every member's type name is mapped to a Crop2ML token (`Double[]` becomes `DOUBLEARRAY`).
- **Identity.** The document ends with a fixed identity: `AP_<type>`, version `1.0`, time step `1`, and links to `algo/pyx/init.<type>.pyx`.

The second part is the four plain records of the soil temperature component in `Models/SoilTemperatureState/`: `SoilTemperatureState`, `SoilTemperatureExogenous`, `SoilTemperatureRate` and `SoilTemperatureAuxiliary`. Each has properties over private backing fields. Each has a copy constructor that either copies everything or leaves every field at its default, depending on `copyAll`. A full copy copies arrays element by element into new arrays.

Files, one module each:

| file | module | models |
|---|---|---|
| `wrappers.dfy` | `Wrappers` | `Option` (a C# reference that may be null) and `Result` (an exception) |
| `linq.dfy` | `Linq` | `Where`, `Select`, `Distinct`, and the nested `foreach … yield return` as `ConcatResults` |
| `text.dfy` | `Text` | `String.StartsWith`, `Contains`, `ToUpper`, `Replace` and `LastIndexOf` |
| `reflection.dfy` | `Reflection` | the member tables reflection reports, and `Type.GetProperty` |
| `source_scan.dfy` | `SourceScan` | `EnumerateFieldUsage` and `IsCommentedOut`: the regular expression `name\.(\w+)` and the comment rule |
| `crop2ml.dfy` | `Crop2ML` | the classifiers `GetExogenous`, `GetParameters`, `GetInputStates`, `GetOutputStates` and `GetMethods`, and `GetDataTypeString` |
| `document.dfy` | `Document` | the `ModelUnit` document and `GetModelDescription` |
| `toy1.dfy` | `Toy1` | the test model `Tests/UnitTests/AMEI/Toy1.cs` and what the extractor makes of it |
| `record_support.dfy` | `RecordSupport` | the C# `int` range and the element-by-element array copy |
| `soil_temperature_*.dfy` | `StateRecord`, `ExogenousRecord`, `RateRecord`, `AuxiliaryRecord` | the four record classes |

## How the model is built

- **The scan.** It is a function of the source text. `Matches` performs the left-to-right, non-overlapping search of the regular expression. `EnumerateFieldUsage` keeps the surviving groups and removes duplicates. The scan is proved sound, complete, ordered and free of duplicates. It is also proved to read the text line by line (`SourceScan.ScanByLines`). On the source of `Toy1` it yields `MinT`, `VP`, `MaxT`.
- **The classifiers.** They are filters and maps over the explicit member tables. Each is proved to keep exactly the members its predicate admits (`…Exactly` lemmas).
- **`GetExogenous`.** It is a `Result`. The lookup throws `AmbiguousMatchException` when the collaborator type has two instance properties of the used name. The model proves that the result fails exactly in that case, and that otherwise the entries are exactly the declared uses, in order.
- **`GetModelDescription`.** It is a method that fills a `ModelUnit` object step by step with `AddRange` calls, and it is proved against the functions `InputsOf`, `OutputsOf` and `FunctionsOf`. Lemmas tag each group: exogenous inputs, then parameters, then input states, with their categories and units.
- **The records.** They are classes. Each field is named as its C# property; Dafny identifiers cannot start with `_`. `Fields()` reads all backing fields at once. Each setter changes its own field and nothing else. Each copy constructor is proved to copy values, to allocate new arrays with equal elements, and to leave the source unchanged. The element loop is `RecordSupport.CopyArray`. The ensures of `Copy` make every array of a full copy fresh, so it shares no array with its source. `CopyIsIndependent`, in the State and Exogenous record modules, shows the consequence for one array: writing into the copy's array leaves the source as it was.

## What the code does on Toy1, and what its test expects

The unit test at `Tests/UnitTests/AMEI/Crop2ML.Tests.cs:32-37` expects `Toy1` to give three inputs, named `MinT`, `VP` and `MaxT`, and one output, `VPD`. The test's source path points to `Crop2ML.Interop/Toy1.cs`, not to the fixture's actual location.

The model follows the code, which disagrees with the test on two points:

- **Input names.** `GetExogenous` names each input after the link field's type (`AMEI/Crop2ML.cs:173`). The three inputs are therefore `IWeather.MinT`, `IWeather.VP` and `IWeather.MaxT`.
- **Where `VPD` goes.** Parameters and outputs are split by `CanWrite` (`AMEI/Crop2ML.cs:193` and `:231`). `VPD` is declared `{ get; private set; }` (`Tests/UnitTests/AMEI/Toy1.cs:23`), so `CanWrite` is true. `VPD` is therefore a fourth input, a parameter, and `Toy1` has no outputs.

`Toy1.Toy1Description` states this outcome: four inputs (the three exogenous ones, then `VPD`), no output, and the two event handlers as functions.

The description fallback computed at `AMEI/Crop2ML.cs:170` is never used: the entry takes the member's documentation summary. The model records no fallback.

## Model

A function that only computes what a source function computes says what it computes. Its row names the lemmas whose contracts prove its properties.

| member | source | states |
|---|---|---|
| SourceScan.WordRun | AMEI/Crop2ML.cs:359 | `\w+` is greedy: the run is made of word characters and stops at the end of the text or at a non-word character |
| SourceScan.GroupAt | AMEI/Crop2ML.cs:359 | the capture group of a match is non-empty and lies within the text |
| SourceScan.GroupIsMaximalRun | AMEI/Crop2ML.cs:359 | the group is the text right after `name.`, all word characters, and not followed by one |
| SourceScan.MatchesFrom | AMEI/Crop2ML.cs:359 | the matches of `name\.(\w+)` found scanning left to right from a position; MatchesFromStartFrom, MatchesFromSound, MatchesInOrder, MatchesFromComplete and MatchesFromSkip prove that they are the leftmost non-overlapping occurrences with their greedy groups |
| SourceScan.MatchesFromStartFrom | AMEI/Crop2ML.cs:359 | a search from a position finds nothing before it |
| SourceScan.MatchesFromSound | AMEI/Crop2ML.cs:359 | every match found is an occurrence of `name.` plus a word character, carrying the group captured there |
| SourceScan.MatchesInOrder | AMEI/Crop2ML.cs:359 | matches are found left to right and do not overlap |
| SourceScan.MatchesFromComplete | AMEI/Crop2ML.cs:359 | every occurrence that does not lie inside an earlier match starts a match |
| SourceScan.MatchesFromSkip | AMEI/Crop2ML.cs:359 | positions without an occurrence add no match |
| SourceScan.MatchesFromSuffix | AMEI/Crop2ML.cs:359 | past a prefix, the matches of the whole text are those of the rest, moved by the prefix length |
| SourceScan.MatchesFromPrefix | AMEI/Crop2ML.cs:359 | a line ended by a newline, followed by more text, keeps its own matches |
| SourceScan.Matches | AMEI/Crop2ML.cs:359 | `Regex.Matches`: the matches from the start of the text; MatchesByLines, MatchesOfUse and MatchesAfterGap compute them on the shapes a source file has |
| SourceScan.MatchesByLines | AMEI/Crop2ML.cs:359 | split after a newline, the matches are those of the first part, then those of the rest, moved |
| SourceScan.MatchesOfUse | AMEI/Crop2ML.cs:359 | a text that starts with `name.g`, where `g` is a complete word, matches `g` at 0 and then the rest's matches, moved |
| SourceScan.MatchesAfterGap | AMEI/Crop2ML.cs:359 | a stretch without the first letter of `name` adds no match |
| SourceScan.UseCaptures | AMEI/Crop2ML.cs:359 | at the start of `name.g`, where `g` is a complete word, the pattern occurs and captures `g` |
| SourceScan.IsCommentedOut | AMEI/Crop2ML.cs:370-376 | the larger of the last `//` and the last newline at or before the match, tested for `//`; CommentRule proves it equal to the independent rule CommentedByRule, and CommentedOutOpens, OpenCommentHides, NoSlashNoComment and NoDoubleSlashKept state its consequences |
| SourceScan.CommentRule | AMEI/Crop2ML.cs:370-376 | a match is dropped exactly when some `//` lies before it with no newline in between; with neither a `//` nor a newline before it, it is kept |
| SourceScan.CommentedOutOpens | AMEI/Crop2ML.cs:373-375 | a dropped match lies in the line comment opened by the last `//` before it |
| SourceScan.OpenCommentHides | AMEI/Crop2ML.cs:370-376 | a `//` earlier on the same line drops the match, even one inside a string literal such as `"http://"` |
| SourceScan.NoSlashNoComment | AMEI/Crop2ML.cs:370-376 | a text without a slash drops no match |
| SourceScan.NoDoubleSlashKept | AMEI/Crop2ML.cs:370-376 | only `//` drops a match: with no two adjacent slashes before it the match is kept, so block comments are not recognised |
| SourceScan.CommentPrefix | AMEI/Crop2ML.cs:370-376 | whether a match is dropped depends only on the text up to it |
| SourceScan.CommentSuffix | AMEI/Crop2ML.cs:370-376 | after a newline, whether a match is dropped depends only on the text after the newline |
| SourceScan.RulePrefix | AMEI/Crop2ML.cs:370-376 | the comment rule reads only the text up to the match |
| SourceScan.RuleSuffix | AMEI/Crop2ML.cs:370-376 | after a newline, the comment rule reads only the text after it |
| SourceScan.EnumerateFieldUsage | AMEI/Crop2ML.cs:357-363 | the result has no duplicates |
| SourceScan.SourceOfGroup | AMEI/Crop2ML.cs:359-361 | every surviving group comes from a match that is not commented out |
| SourceScan.UsageSound | AMEI/Crop2ML.cs:357-363 | every listed member is read in the text: `name.member` occurs outside a line comment and captures it |
| SourceScan.UsageComplete | AMEI/Crop2ML.cs:357-363 | every match that is not commented out contributes its member |
| SourceScan.UsageEmpty | AMEI/Crop2ML.cs:357-363 | the result is empty exactly when every match is commented out |
| SourceScan.UsageOrder | AMEI/Crop2ML.cs:362 | members are listed in the order of their first surviving use |
| SourceScan.NoOccurrenceNoUsage | AMEI/Crop2ML.cs:357-363 | a text without an occurrence yields nothing |
| SourceScan.NoUseNoGroups | AMEI/Crop2ML.cs:359-361 | a text without `name.` has no surviving group |
| SourceScan.CapturesAppend | AMEI/Crop2ML.cs:360-361 | filtering and capturing distribute over concatenated match lists |
| SourceScan.CapturesPrefix | AMEI/Crop2ML.cs:360-361 | the matches of a line survive in a longer text exactly as on the line alone |
| SourceScan.CapturesSuffix | AMEI/Crop2ML.cs:360-361 | matches after a newline survive, moved, exactly as in the text after it |
| SourceScan.SurvivesPastPrefix | AMEI/Crop2ML.cs:360 | a match moved past a newline-terminated prefix survives exactly when it survives without it |
| SourceScan.AllSurvive | AMEI/Crop2ML.cs:360-361 | in a text without a slash every match survives |
| SourceScan.ScanByLines | AMEI/Crop2ML.cs:357-363 | the scan reads the text line by line: split after a newline, the surviving groups concatenate and the result is their deduplication |
| Text.LastIndexOf | AMEI/Crop2ML.cs:373-374 | the last occurrence lying wholly at or before the start position, or -1 when there is none |
| Text.ToUpper | AMEI/Crop2ML.cs:280 | upper-casing keeps the length and maps each character |
| Text.ToUpperOfUpperCase | AMEI/Crop2ML.cs:280 | upper-casing an upper-case string changes nothing |
| Text.Replace | AMEI/Crop2ML.cs:280 | ordinal `String.Replace`, left to right without overlap; ReplaceAbsent, ReplaceAppend and KeptFirst here, and ReplaceBracketsRemovesThem and ReplaceBracketsKeepsUpperCase in `Crop2ML`, prove its properties |
| Text.ReplaceAbsent | AMEI/Crop2ML.cs:280 | replacing a pattern that does not occur changes nothing |
| Text.ReplaceAppend | AMEI/Crop2ML.cs:280 | when no occurrence straddles the seam, replacing in a concatenation replaces in each part |
| Text.KeptFirst | AMEI/Crop2ML.cs:280 | where no occurrence starts, the first character is kept |
| Linq.Where | AMEI/Crop2ML.cs:360 | the filter keeps only elements that pass, taken from the input |
| Linq.WhereComplete | AMEI/Crop2ML.cs:360 | the filter keeps every element that passes |
| Linq.Select | AMEI/Crop2ML.cs:361 | the map keeps the length and maps each element |
| Linq.Distinct | AMEI/Crop2ML.cs:362 | the result has no duplicates and takes every element from the input |
| Linq.DistinctComplete | AMEI/Crop2ML.cs:362 | every element of the input is kept |
| Linq.DistinctKeepsFirstOccurrenceOrder | AMEI/Crop2ML.cs:362 | elements are listed in the order of their first occurrence |
| Linq.ConcatResults | AMEI/Crop2ML.cs:149-180 | the nested `foreach … yield return`: each group's entries in turn, ended by the exception of the first group that throws; ConcatResultsFailure, ConcatResultsAppend, ConcatResultsSound and ConcatResultsComplete prove its properties |
| Linq.ConcatResultsFailure | AMEI/Crop2ML.cs:149-180 | the nested enumeration throws exactly when one of its groups throws |
| Linq.ConcatResultsAppend | AMEI/Crop2ML.cs:149-180 | enumerating two runs of groups gives the two results one after the other |
| Linq.ConcatResultsSound | AMEI/Crop2ML.cs:149-180 | every element enumerated comes from one of the groups |
| Linq.ConcatResultsComplete | AMEI/Crop2ML.cs:149-180 | every element of every group is enumerated |
| Reflection.GetProperty | AMEI/Crop2ML.cs:161-165 | the lookup throws exactly when two instance properties have the name; a property found has the name |
| Reflection.GetPropertyNone | AMEI/Crop2ML.cs:161-165 | the lookup returns null exactly when no instance property has the name |
| Reflection.GetPropertyUnique | AMEI/Crop2ML.cs:161-165 | with a single instance property of that name, the lookup returns it |
| Crop2ML.GetExogenous | AMEI/Crop2ML.cs:146-181 | the exogenous entries of every `[Link]` field's surviving declared uses, or the ambiguity exception; ExogenousSound, ExogenousComplete, GetExogenousCoversLinks, ExogenousFailure, FailureHasAmbiguousUse and AmbiguousUseFails prove its properties |
| Crop2ML.LinkFields | AMEI/Crop2ML.cs:149-153 | every field iterated is a `[Link]` instance field of the type |
| Crop2ML.LinkFieldsExactly | AMEI/Crop2ML.cs:149-153 | a field is iterated exactly when it is a `[Link]` field of the type |
| Crop2ML.GetExogenousCoversLinks | AMEI/Crop2ML.cs:149-181 | every `[Link]` field is scanned: each of its surviving uses that its type declares gives an exogenous entry |
| Crop2ML.ExogenousEntry | AMEI/Crop2ML.cs:171-177 | the yielded entry: named `FieldType.member`, with the property's summary, type and units; EntriesForNames, ExogenousSound and ExogenousComplete tie each entry to its use |
| Crop2ML.DeclaredProperty | AMEI/Crop2ML.cs:161-165 | the property found is an instance property of the collaborator with the used name |
| Crop2ML.EntriesFor | AMEI/Crop2ML.cs:158-179 | a link field yields at most one entry per use |
| Crop2ML.LinkGroups | AMEI/Crop2ML.cs:149-180 | each link field is scanned on its own, in link order |
| Crop2ML.EntriesForFailure | AMEI/Crop2ML.cs:158-165 | the lookups of a link field throw exactly when a used identifier is ambiguous on its type |
| Crop2ML.EntriesForError | AMEI/Crop2ML.cs:158-165 | the exception is that of the first ambiguous identifier |
| Crop2ML.EntriesForNames | AMEI/Crop2ML.cs:158-173 | without ambiguity, the entries are named `FieldType.member`, in order, after exactly the uses the type declares; other identifiers, such as method names, are skipped |
| Crop2ML.EntriesForSound | AMEI/Crop2ML.cs:158-177 | every entry comes from a use that the type declares |
| Crop2ML.EntriesForComplete | AMEI/Crop2ML.cs:158-177 | every use that the type declares gives its entry |
| Crop2ML.ExogenousAppend | AMEI/Crop2ML.cs:149-180 | the entries of consecutive runs of link fields are concatenated, so a property reached through two links gives two entries |
| Crop2ML.LinkGroupsAppend | AMEI/Crop2ML.cs:149-180 | the groups of consecutive runs of link fields are those of each run |
| Crop2ML.ExogenousOfOne | AMEI/Crop2ML.cs:149-180 | with a single link field, the entries are that field's |
| Crop2ML.ExogenousSound | AMEI/Crop2ML.cs:146-181 | every exogenous entry comes from a link field and a surviving use that its type declares |
| Crop2ML.ExogenousComplete | AMEI/Crop2ML.cs:146-181 | every surviving use that the link's type declares gives its entry |
| Crop2ML.ExogenousFailure | AMEI/Crop2ML.cs:146-181 | the extraction throws exactly when some link field has a surviving use that is ambiguous on its type |
| Crop2ML.FailureHasAmbiguousUse | AMEI/Crop2ML.cs:146-181 | a failed extraction has an ambiguous use behind it |
| Crop2ML.AmbiguousUseFails | AMEI/Crop2ML.cs:146-181 | an ambiguous use makes the extraction fail |
| Crop2ML.GetParameters | AMEI/Crop2ML.cs:188-201 | the details of the own public properties with a setter, in declaration order; see ParametersExactly and PropertiesPartitioned |
| Crop2ML.ParametersExactly | AMEI/Crop2ML.cs:188-201 | the parameters are exactly the details of the public declared instance properties with a setter |
| Crop2ML.IsInputState | AMEI/Crop2ML.cs:210-213 | the field filter: a non-public declared instance field that is no backing field, no `EventHandler` and no `[Link]`; see InputStatesExactly |
| Crop2ML.GetInputStates | AMEI/Crop2ML.cs:208-221 | the details, without a unit, of the fields IsInputState keeps, in declaration order; see InputStatesExactly, OutputsExactly and OutputsTagged |
| Crop2ML.InputStatesExactly | AMEI/Crop2ML.cs:208-221 | the input states are exactly the non-public declared instance fields that are not backing fields, event handlers or links |
| Crop2ML.GetOutputStates | AMEI/Crop2ML.cs:228-239 | the outputs are as many as the input states and the read-only properties together |
| Crop2ML.OutputsExactly | AMEI/Crop2ML.cs:228-239 | the outputs are exactly the input states and the read-only properties; those from fields have no unit |
| Crop2ML.PropertiesPartitioned | AMEI/Crop2ML.cs:188-239 | the parameters and the read-only output properties together are as many as the own public properties; with ParametersExactly and OutputsExactly, whose filters split on `CanWrite`, each such property is exactly one of the two |
| Crop2ML.IsFunction | AMEI/Crop2ML.cs:248-256 | the method filter: declared by the type and not named `get_…`, `set_…`, `add_…` or `remove_…`; see MethodsExactly |
| Crop2ML.GetMethods | AMEI/Crop2ML.cs:246-262 | the name and summary of each method IsFunction keeps, in declaration order; see MethodsExactly and FunctionsTagged |
| Crop2ML.MethodsExactly | AMEI/Crop2ML.cs:246-262 | the functions are exactly the declared methods not named `get_…`, `set_…`, `add_…` or `remove_…` |
| Crop2ML.GetDataTypeString | AMEI/Crop2ML.cs:278-281 | the type name upper-cased with every `[]` replaced by `ARRAY`; DataTypeStringIdempotent, DataTypeStringOfArray, DataTypeStringWithoutBrackets and DataTypeStringOfDoubleArray prove its properties |
| Crop2ML.ReplaceBracketsRemovesThem | AMEI/Crop2ML.cs:280 | replacing `[]` by `ARRAY` leaves no `[]` |
| Crop2ML.ReplaceBracketsKeepsUpperCase | AMEI/Crop2ML.cs:280 | replacing `[]` by `ARRAY` keeps a string upper-case |
| Crop2ML.DataTypeStringIdempotent | AMEI/Crop2ML.cs:278-281 | a token has no `[]` and no lower-case letter, and mapping it again changes nothing |
| Crop2ML.DataTypeStringOfArray | AMEI/Crop2ML.cs:278-281 | the token of an array type is that of its element type followed by `ARRAY` |
| Crop2ML.DataTypeStringWithoutBrackets | AMEI/Crop2ML.cs:278-281 | a type name without brackets is only upper-cased |
| Crop2ML.DataTypeStringOfDoubleArray | AMEI/Crop2ML.cs:278-281 | `Double[]` becomes `DOUBLEARRAY` |
| Document.Inputs | AMEI/Crop2ML.cs:55-88 | the inputs are as many as the exogenous members, parameters and input states together |
| Document.ModelUnit.constructor | AMEI/Crop2ML.cs:46-50 | a new unit has the empty input and output lists that lines 47-50 create, and an empty function list (see "## Left out") |
| Document.ModelUnit.AddInputs | AMEI/Crop2ML.cs:55 | `AddRange` appends to the inputs and changes nothing else |
| Document.ModelUnit.AddOutputs | AMEI/Crop2ML.cs:91 | `AddRange` appends to the outputs and changes nothing else |
| Document.ModelUnit.AddFunctions | AMEI/Crop2ML.cs:102 | `AddRange` appends to the functions and changes nothing else |
| Document.AddGroups | AMEI/Crop2ML.cs:54-110 | the inputs are the exogenous members, then the parameters, then the input states; then come the outputs and the functions; the identity is untouched |
| Document.SetIdentity | AMEI/Crop2ML.cs:112-137 | the identity is `AP_<type>`, the type name, time step `1`, version `1.0`, the APSIM header, and `init_<type>` in `algo/pyx/init.<type>.pyx`; the member lists are untouched |
| Document.GetModelDescription | AMEI/Crop2ML.cs:43-143 | the unit is built exactly when the exogenous scan does not throw, and its exception is the scan's; a built unit is new, holds the groups in their fixed order and has the fixed identity |
| Document.ExogenousInput | AMEI/Crop2ML.cs:55-63 | the input built for an exogenous member; see ExogenousInputsTagged |
| Document.ParameterInput | AMEI/Crop2ML.cs:67-75 | the input built for a parameter; see ParameterInputsTagged |
| Document.StateInput | AMEI/Crop2ML.cs:79-87 | the input built for an input state; see StateInputsTagged |
| Document.InputsOf | AMEI/Crop2ML.cs:54-88 | the inputs of a type given its exogenous members; see Inputs, the three *InputsTagged rows and InputDataTypesAreTokens |
| Document.ExogenousInputsTagged | AMEI/Crop2ML.cs:55-64 | the first inputs are the exogenous members: variables of category `exogenous` with the member's name, description and unit, and the data-type token `GetDataTypeString` gives for its type |
| Document.ParameterInputsTagged | AMEI/Crop2ML.cs:67-76 | next come the parameters, of input type `parameter` and category `constant`, with the property's name, description and unit, and the data-type token of its type |
| Document.StateInputsTagged | AMEI/Crop2ML.cs:79-88 | the input states come last: variables of category `state` with the field's name, description and data-type token, whose unit is always `""` |
| Document.InputDataTypesAreTokens | AMEI/Crop2ML.cs:55-88 | every input's data type is upper case and has no `[]` |
| Document.OutputDataTypesAreTokens | AMEI/Crop2ML.cs:91-99 | every output's data type is upper case and has no `[]` |
| Document.StateOutput | AMEI/Crop2ML.cs:92-98 | the output built for an output state; see OutputsTagged |
| Document.OutputsOf | AMEI/Crop2ML.cs:91-99 | the outputs of a type; see OutputsTagged and OutputDataTypesAreTokens |
| Document.OutputsTagged | AMEI/Crop2ML.cs:91-99 | every output is a state; the input states come first, with their name, description and data-type token and no unit, then the read-only properties, with their name, description, data-type token and unit |
| Document.ExternalFunction | AMEI/Crop2ML.cs:103-109 | the function built for a method; see FunctionsTagged |
| Document.FunctionsOf | AMEI/Crop2ML.cs:102-110 | the functions of a type; see FunctionsTagged |
| Document.FunctionsTagged | AMEI/Crop2ML.cs:102-110 | every function is an external `cyml` routine in `algo/pyx/<name>.pyx`, named after a declared method that is not an accessor |
| Toy1.DifferenceMatches | Tests/UnitTests/AMEI/Toy1.cs:45 | the text after the first use on the line holds one use, of `VP` |
| Toy1.LineMatches | Tests/UnitTests/AMEI/Toy1.cs:45 | the line `… weather.x) - weather.VP;` matches `x` and then `VP` |
| Toy1.DifferenceLine | Tests/UnitTests/AMEI/Toy1.cs:45 | such a line yields the surviving groups `x`, `VP` |
| Toy1.MinLineGroups | Tests/UnitTests/AMEI/Toy1.cs:45 | line 45 yields `MinT`, `VP` |
| Toy1.MaxLineGroups | Tests/UnitTests/AMEI/Toy1.cs:48 | line 48 yields `MaxT`, `VP` |
| Toy1.FiveParts | AMEI/Crop2ML.cs:357-363 | a text cut into five pieces at line ends yields the deduplicated groups of its pieces |
| Toy1.Toy1Usage | Tests/UnitTests/AMEI/Toy1.cs:45-48 | the uses of `weather` in a source whose other lines do not contain `weather.` are `MinT`, `VP`, `MaxT` |
| Toy1.DistinctOfUses | Tests/UnitTests/AMEI/Toy1.cs:45-48 | the second `VP` is dropped |
| Toy1.BackingFieldNamed | Tests/UnitTests/AMEI/Toy1.cs:23 | the backing field of `VPD` is recognised by its name |
| Toy1.Toy1Fields | Tests/UnitTests/AMEI/Toy1.cs:15-23 | the only link field is `weather`, and no field is an input state |
| Toy1.Toy1Properties | Tests/UnitTests/AMEI/Toy1.cs:18-23 | `VPD` is the one parameter, in `hPa`; there is no read-only property |
| Toy1.Toy1Functions | Tests/UnitTests/AMEI/Toy1.cs:23-42 | the accessors of `VPD` are not functions; the two event handlers are |
| Toy1.WeatherEntries | Tests/UnitTests/AMEI/Toy1.cs:45-48 | the three uses give entries named `IWeather.MinT`, `IWeather.VP`, `IWeather.MaxT` |
| Toy1.Toy1Exogenous | Tests/UnitTests/AMEI/Toy1.cs:15-16 | the exogenous members are those three, in that order |
| Toy1.VPDParameter | Tests/UnitTests/AMEI/Toy1.cs:18-23 | `VPD` as an input is a `constant` parameter of type `DOUBLE` in `hPa` |
| Toy1.ThreeAndVPD | AMEI/Crop2ML.cs:55-88 | three exogenous members and `VPD`, without input states, give four inputs with `VPD` last |
| Toy1.Toy1Inputs | Tests/UnitTests/AMEI/Toy1.cs:13-54 | `Toy1` has four inputs: the three exogenous ones and then `VPD` |
| Toy1.Toy1Outputs | Tests/UnitTests/AMEI/Toy1.cs:23 | `Toy1` has no outputs |
| Toy1.Toy1FunctionEntries | Tests/UnitTests/AMEI/Toy1.cs:25-42 | the functions are `OnStartOfSimulation` and `OnStartOfDay`, external `cyml` routines with their summaries and files |
| Toy1.Toy1Description | Tests/UnitTests/AMEI/Toy1.cs:13-54 | the extractor's document for `Toy1`: four inputs ending with `VPD`, no output, and two functions |
| RecordSupport.CopyArray | Models/SoilTemperatureState/SoilTemperatureState.cs:34-36 | the copy is a new array with the same elements |
| StateRecord.SoilTemperatureState.constructor | Models/SoilTemperatureState/SoilTemperatureState.cs:22 | a new record holds null arrays and zero scalars |
| StateRecord.SoilTemperatureState.Copy | Models/SoilTemperatureState/SoilTemperatureState.cs:29-51 | with `copyAll` every scalar equals the source's and every array is a fresh array, distinct from the source's, with the same elements; without it the defaults; all source arrays must be set for a full copy; the source and its arrays are unchanged |
| StateRecord.SoilTemperatureState.SetRSoilTempArrayRate | Models/SoilTemperatureState/SoilTemperatureState.cs:55-59 | after setting `rSoilTempArrayRate` it reads back the value set and every other property is unchanged |
| StateRecord.SoilTemperatureState.SetPSoilLayerDepth | Models/SoilTemperatureState/SoilTemperatureState.cs:63-67 | after setting `pSoilLayerDepth` it reads back the value set and every other property is unchanged |
| StateRecord.SoilTemperatureState.SetPInternalAlbedo | Models/SoilTemperatureState/SoilTemperatureState.cs:71-75 | after setting `pInternalAlbedo` it reads back the value set and every other property is unchanged |
| StateRecord.SoilTemperatureState.SetSnowWaterContent | Models/SoilTemperatureState/SoilTemperatureState.cs:79-83 | after setting `SnowWaterContent` it reads back the value set and every other property is unchanged |
| StateRecord.SoilTemperatureState.SetSoilSurfaceTemperature | Models/SoilTemperatureState/SoilTemperatureState.cs:87-91 | after setting `SoilSurfaceTemperature` it reads back the value set and every other property is unchanged |
| StateRecord.SoilTemperatureState.SetAgeOfSnow | Models/SoilTemperatureState/SoilTemperatureState.cs:95-99 | after setting `AgeOfSnow` it reads back the value set and every other property is unchanged |
| StateRecord.SoilTemperatureState.SetSoilTempArray | Models/SoilTemperatureState/SoilTemperatureState.cs:103-107 | after setting `SoilTempArray` it reads back the value set and every other property is unchanged |
| StateRecord.CopyIsIndependent | Models/SoilTemperatureState/SoilTemperatureState.cs:46-48 | writing an element of a full copy's `SoilTempArray` leaves the source's array and fields as they were |
| ExogenousRecord.SoilTemperatureExogenous.constructor | Models/SoilTemperatureState/SoilTemperatureExogenous.cs:27 | a new record holds null arrays and zero scalars |
| ExogenousRecord.SoilTemperatureExogenous.Copy | Models/SoilTemperatureState/SoilTemperatureExogenous.cs:34-60 | with `copyAll` every scalar equals the source's and every array is a fresh array, distinct from the source's, with the same elements; without it the defaults; all source arrays must be set for a full copy; the source and its arrays are unchanged |
| ExogenousRecord.SoilTemperatureExogenous.SetIAirTemperatureMax | Models/SoilTemperatureState/SoilTemperatureExogenous.cs:64-68 | after setting `iAirTemperatureMax` it reads back the value set and every other property is unchanged |
| ExogenousRecord.SoilTemperatureExogenous.SetITempMax | Models/SoilTemperatureState/SoilTemperatureExogenous.cs:72-76 | after setting `iTempMax` it reads back the value set and every other property is unchanged |
| ExogenousRecord.SoilTemperatureExogenous.SetIAirTemperatureMin | Models/SoilTemperatureState/SoilTemperatureExogenous.cs:80-84 | after setting `iAirTemperatureMin` it reads back the value set and every other property is unchanged |
| ExogenousRecord.SoilTemperatureExogenous.SetITempMin | Models/SoilTemperatureState/SoilTemperatureExogenous.cs:88-92 | after setting `iTempMin` it reads back the value set and every other property is unchanged |
| ExogenousRecord.SoilTemperatureExogenous.SetIGlobalSolarRadiation | Models/SoilTemperatureState/SoilTemperatureExogenous.cs:96-100 | after setting `iGlobalSolarRadiation` it reads back the value set and every other property is unchanged |
| ExogenousRecord.SoilTemperatureExogenous.SetIRadiation | Models/SoilTemperatureState/SoilTemperatureExogenous.cs:104-108 | after setting `iRadiation` it reads back the value set and every other property is unchanged |
| ExogenousRecord.SoilTemperatureExogenous.SetIRAIN | Models/SoilTemperatureState/SoilTemperatureExogenous.cs:112-116 | after setting `iRAIN` it reads back the value set and every other property is unchanged |
| ExogenousRecord.SoilTemperatureExogenous.SetICropResidues | Models/SoilTemperatureState/SoilTemperatureExogenous.cs:120-124 | after setting `iCropResidues` it reads back the value set and every other property is unchanged |
| ExogenousRecord.SoilTemperatureExogenous.SetIPotentialSoilEvaporation | Models/SoilTemperatureState/SoilTemperatureExogenous.cs:128-132 | after setting `iPotentialSoilEvaporation` it reads back the value set and every other property is unchanged |
| ExogenousRecord.SoilTemperatureExogenous.SetILeafAreaIndex | Models/SoilTemperatureState/SoilTemperatureExogenous.cs:136-140 | after setting `iLeafAreaIndex` it reads back the value set and every other property is unchanged |
| ExogenousRecord.SoilTemperatureExogenous.SetSoilTempArray | Models/SoilTemperatureState/SoilTemperatureExogenous.cs:144-148 | after setting `SoilTempArray` it reads back the value set and every other property is unchanged |
| ExogenousRecord.SoilTemperatureExogenous.SetISoilTempArray | Models/SoilTemperatureState/SoilTemperatureExogenous.cs:152-156 | after setting `iSoilTempArray` it reads back the value set and every other property is unchanged |
| ExogenousRecord.SoilTemperatureExogenous.SetISoilWaterContent | Models/SoilTemperatureState/SoilTemperatureExogenous.cs:160-164 | after setting `iSoilWaterContent` it reads back the value set and every other property is unchanged |
| ExogenousRecord.SoilTemperatureExogenous.SetISoilSurfaceTemperature | Models/SoilTemperatureState/SoilTemperatureExogenous.cs:168-172 | after setting `iSoilSurfaceTemperature` it reads back the value set and every other property is unchanged |
| ExogenousRecord.CopyIsIndependent | Models/SoilTemperatureState/SoilTemperatureExogenous.cs:53-55 | writing an element of a full copy's `iSoilTempArray` leaves the source's array and fields as they were |
| RateRecord.SoilTemperatureRate.constructor | Models/SoilTemperatureState/SoilTemperatureRate.cs:15 | a new record holds zeros |
| RateRecord.SoilTemperatureRate.Copy | Models/SoilTemperatureState/SoilTemperatureRate.cs:22-31 | with `copyAll` every value equals the source's, without it every value is zero; the source is unchanged |
| RateRecord.SoilTemperatureRate.SetRSnowWaterContentRate | Models/SoilTemperatureState/SoilTemperatureRate.cs:35-39 | after setting `rSnowWaterContentRate` it reads back the value set and every other property is unchanged |
| RateRecord.SoilTemperatureRate.SetRSoilSurfaceTemperatureRate | Models/SoilTemperatureState/SoilTemperatureRate.cs:43-47 | after setting `rSoilSurfaceTemperatureRate` it reads back the value set and every other property is unchanged |
| RateRecord.SoilTemperatureRate.SetRAgeOfSnowRate | Models/SoilTemperatureState/SoilTemperatureRate.cs:51-55 | after setting `rAgeOfSnowRate` it reads back the value set and every other property is unchanged |
| AuxiliaryRecord.SoilTemperatureAuxiliary.constructor | Models/SoilTemperatureState/SoilTemperatureAuxiliary.cs:16 | a new record holds zeros |
| AuxiliaryRecord.SoilTemperatureAuxiliary.Copy | Models/SoilTemperatureState/SoilTemperatureAuxiliary.cs:23-30 | with `copyAll` every value equals the source's, without it every value is zero; the source is unchanged |
| AuxiliaryRecord.SoilTemperatureAuxiliary.SetSnowIsolationIndex | Models/SoilTemperatureState/SoilTemperatureAuxiliary.cs:34-38 | after setting `SnowIsolationIndex` it reads back the value set and every other property is unchanged |

## Left out

- `WriteXmlFile` (`AMEI/Crop2ML.cs:24-39`) is left out: it only serialises the unit to XML and writes a file.
- Reading the source file (`AMEI/Crop2ML.cs:52`) is left out: the model takes the text as a parameter.
- Reflection is not modelled. The members of a type are explicit tables, taken to be in declaration order. Each field records whether it carries `[Link]` and holds the property table of its field type.
- `GetFields(… FlattenHierarchy)` is only approximated: the model keeps the public fields and the fields the type declares. Members inherited from `Model` are not part of this model.
- `AutoDocumentation.GetSummary` and `VariableProperty.Units` (`AMEI/Crop2ML.cs:123,174,176,199,237`) are not evaluated: the summary and the `[Units]` text are data stored with each member. A null summary or unit is `None`, or `""` where the model uses plain strings.
- `Type` values are not modelled: a member's type is its `Type.Name`, as a string.
- `ToUpper` is not culture-aware: it maps the ASCII letters `a`–`z` only.
- `\w` is ASCII only: letters, digits and `_`. A member `name` containing regular-expression metacharacters is matched literally.
- Text.LastIndexOf: uses ordinal comparison, but the C# call (`AMEI/Crop2ML.cs:373`) is culture-sensitive. Under ICU, `"\n"` is not found inside `"\r\n"`. So on a file with CRLF line ends the real search can run back past the line start, and any earlier `//` on an earlier line (a `///` doc comment, say) makes every later use count as commented out. The model does not show that loss.
- The `StartsWith` tests of `GetMethods` (`AMEI/Crop2ML.cs:253-256`) are culture-sensitive in C#. `Crop2ML.IsFunction` models them as ordinal prefix tests.
- `ConverSourceCodeToCrop2MLFriendly` (`AMEI/Crop2ML.cs:314-349`) is left out: it is unreachable, because its only call is commented out at `AMEI/Crop2ML.cs:139`.
- Document.ModelUnit.constructor: the `ModelUnit` class is not part of this model, and the model takes its constructor to set `Function` to an empty list. `GetModelDescription` creates only `Inputs`, `Inputs.Input`, `Outputs` and `Outputs.Output` (`AMEI/Crop2ML.cs:47-50`) before adding to `Function` at line 102.
- The `ModelUnit` class definition is not part of this model. `Document.ModelUnit` holds the members that `GetModelDescription` sets, and its identity strings start empty instead of null.
- `AMEI/Program.cs`, `ApsimNG/Presenters/PropertyPresenter.cs`, the `*Wrapper.cs` simulation glue, `SoilTemperatureComponent.cs`, the report tests and the interface files are not part of this model. They are command-line handling, user interface, simulation wiring, or interfaces without logic.
- Toy1.Toy1Description: states lines 45 and 48 of `Toy1.cs` literally. It takes the text before, between and after them as parameters, with no `weather.` in them, and does not spell out the whole file.
- Doubles are stored and never computed on, so they are `real`: NaN and rounding are not modelled. C# `int` is `RecordSupport.int32`.
- StateRecord.SoilTemperatureState.Copy: a full copy of a record with a null array throws `NullReferenceException` in C#; the model requires every array to be set instead.
- ExogenousRecord.SoilTemperatureExogenous.Copy: likewise requires both arrays to be set for a full copy.
- The property getters are field reads and have no members of their own.
