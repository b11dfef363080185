# Getter/setter generator: a Dafny model

This project models the core of `src/getterSetter.js`. That is the React component
that turns C-like member declarations, one per line (`int mcsi_Magi;`,
`CHello *pmeC_Hello;`, `char mcac_Name[32];`), into three texts you can paste into
C++ code:

- the out-of-line getters and setters;
- the same accessors scoped to a class and marked `inline`;
- one initialization statement per member.

It also produces a list of warnings for the lines it rejects.

The model follows the code's own structure, in six modules:

- `JsText` (`jstext.dfy`) holds the JavaScript built-ins the code uses, written as
  functions over `string`: `trim`, `includes`, `startsWith`, `indexOf`,
  `lastIndexOf`, `replace` with a one-character pattern, and `split` on one
  character.
- `DeclarationPattern` (`pattern.dfy`) holds the two declaration regular expressions
  of lines 39-40. Each is given twice:
  - declaratively, as "the pattern matches at index `i` with its groups here";
  - as a matcher that returns the leftmost match with greedy groups.

  Lemmas prove that the matcher is what a backtracking engine reports.
- `ParameterPrefix` (`prefix.dfy`) infers the Hungarian prefix of the setter's
  parameter (lines 80-123). The pattern of line 83 is modelled the same two ways.
  The switch, the `mcS_` override and the pointer `p` follow it.
- `AccessorGenerator` (`accessor.dfy`) is the body of the per-line `forEach`
  callback (lines 36-209), written as a pure function from one trimmed line to
  either a warning or a fragment. A fragment holds the code, the inline code and the
  initializer. `genBlock` and the initializer chain are separate functions.
- `GetterSetterGeneration` (`generation.dfy`) holds `generateGettersSetters`:
  - the method has a `while` loop that appends to the four accumulators as the
    source does;
  - it is proved equal to a fold over the per-line outcomes;
  - lemmas state what the final outputs are.

  The React state the function writes is returned as a value of type `Outputs`.
- `DeclarationScenarios` (`scenarios.dfy`) states what the per-line step yields for
  a few single lines: the classification of `int mcsi_Magi;`, `char buf[];` and
  `char mcac_Buf[0];`, and the full fragment for `int mcsi_Magi;`.

## Model

| member | source | states |
|---|---|---|
| JsText.Trim | src/getterSetter.js:36 | the result is the input with its leading and trailing white space cut off: a slice of the input with only white space before and after it, with no white space at either of its own ends, and empty exactly when the input is all white space |
| JsText.TrimAfterSpacesFrom | src/getterSetter.js:69 | trimming the text after a leading `*` that is followed by white space and then a word gives exactly that word |
| JsText.IncludesMeaning | src/getterSetter.js:66 | `includes` holds exactly when the searched text occurs at some index |
| JsText.IndexOfFrom | src/getterSetter.js:68-69 | the result is -1 exactly when the character is absent; otherwise it is the first index holding it |
| JsText.LastIndexOf | src/getterSetter.js:17 | the result is -1 exactly when the character is absent; otherwise it is an index holding it with none after it |
| JsText.ReplaceFirst | src/getterSetter.js:68-69 | nothing changes without the character; otherwise exactly its first occurrence is removed |
| JsText.ReplaceFirstAtHead | src/getterSetter.js:69 | removing the first `*` of a name that starts with `*` drops the head character |
| JsText.Split | src/getterSetter.js:23 | there is at least one piece, no piece holds the separator, and joining the pieces with it gives the input back |
| JsText.SplitJoin | src/getterSetter.js:23 | splitting the join of separator-free pieces gives the pieces back |
| JsText.JoinAllSpaces | src/getterSetter.js:23 | text joined on line breaks is all white space exactly when every line is |
| JsText.UpperCase | src/getterSetter.js:78 | a lower-case ASCII letter becomes the upper-case letter at the same place in the alphabet; every other character is unchanged; word characters stay word characters |
| DeclarationPattern.TailEnd | src/getterSetter.js:39-40 | finds the end of `;` or `[digits];` after group 2 exactly when the tail predicate holds, and that end is unique |
| DeclarationPattern.MatchAtSound | src/getterSetter.js:39-40 | whatever the matcher returns at a start is a match of the pattern, and group 2 does not begin with white space |
| DeclarationPattern.MatchAtComplete | src/getterSetter.js:39-40 | every match at a start is found, with the same group 1, group 2 end and group 3, and a `\s+` at least as long |
| DeclarationPattern.FindFromFirst | src/getterSetter.js:39-40 | the search returns the matcher's result at the first start that has one, and no start before it has one |
| DeclarationPattern.FindIsLeftmostGreedy | src/getterSetter.js:39-40 | `match` fails exactly when the pattern matches nowhere; otherwise it reports a match with no match further left, and every match at that start agrees with it |
| DeclarationPattern.CapturesShaped | src/getterSetter.js:39-40 | the groups of a match are a word-and-space type, a word or starred word, and a digit string for the array form |
| DeclarationPattern.Match | src/getterSetter.js:39-40 | the groups exist exactly when the search succeeds, and they have the shapes the patterns allow |
| ParameterPrefix.FirstAlternative | src/getterSetter.js:83 | the alternation picks the first alternative in list order that is followed by `_` |
| ParameterPrefix.AlternativeAt | src/getterSetter.js:83 | at a given `m` the chosen alternative fits, and no earlier one does |
| ParameterPrefix.LastHitBelow | src/getterSetter.js:83 | the greedy `.*` takes the rightmost `m` at which some alternative fits |
| ParameterPrefix.FindHitIsRightmostFirst | src/getterSetter.js:83 | the pattern fails exactly when it has no match; otherwise the hit is a match with no match further right, and at its `m` no earlier alternative fits |
| ParameterPrefix.PrefixMatch | src/getterSetter.js:83-86 | every captured code is a key of the switch's table |
| ParameterPrefix.SwitchIsTable | src/getterSetter.js:87-109 | every capturable code has its own case, so the `default` arm is never taken; the switch is the table except for the `mcS_` test of case `s` |
| ParameterPrefix.SwitchedPrefix | src/getterSetter.js:81-110 | with no match the prefix stays `siL`; with a code and no `mcS_` head it is the code's table entry |
| ParameterPrefix.ParamPrefix | src/getterSetter.js:81-123 | the final prefix is `p` for pointers, then `SL` for `mcS_` names, else the table entry of the code, else `siL`; the keyword test of lines 112-118 changes nothing |
| ParameterPrefix.PointerPrefix | src/getterSetter.js:120-123 | a pointer's prefix is the non-pointer prefix with `p` in front |
| ParameterPrefix.ExampleBool | src/getterSetter.js:81-86 | `mb_Active` has no code, so its prefix is `siL` |
| ParameterPrefix.ExampleInt | src/getterSetter.js:81-110 | `mcsi_Magi` has no code (`si` is not an alternative), so its prefix is `siL` |
| ParameterPrefix.ExampleStructure | src/getterSetter.js:112-118 | `mcS_Response` gets `SL` |
| ParameterPrefix.ExamplePointer | src/getterSetter.js:83-123 | `pmeC_Hello` captures `C`, and as a pointer its prefix is `pCL` |
| ParameterPrefix.ExampleUnsignedLong | src/getterSetter.js:83-109 | in `mcul_Count` the alternative `ull` fails and `ul` is taken, giving `ulL` |
| AccessorGenerator.ExtractMeaningfulName | src/getterSetter.js:16-20 | the result has no `_`; with a `_` in the name it is the suffix right after the last `_`; otherwise it is the whole name |
| AccessorGenerator.MeaningfulNameIdempotent | src/getterSetter.js:16-20 | extracting the meaningful name twice equals extracting it once |
| AccessorGenerator.Capitalize | src/getterSetter.js:78 | same length, first character upper-cased, remainder unchanged, word characters kept |
| AccessorGenerator.DecimalValueZero | src/getterSetter.js:57 | a digit string has the value zero exactly when all its digits are `0` |
| AccessorGenerator.StarredNameStripped | src/getterSetter.js:66-69 | for a starred group 2, removing the `*` and trimming leaves the word |
| AccessorGenerator.TypeHasNoStar | src/getterSetter.js:66-68 | group 1 never contains `*`, so a pointer is recognised only by the name |
| AccessorGenerator.ValidateCaptures | src/getterSetter.js:52-75 | on the groups of a match, validation rejects exactly the array sizes of value zero; otherwise it yields the type, the word of group 2, the array flag and the pointer flag (`*` at the head of group 2) |
| AccessorGenerator.StripCaptures | src/getterSetter.js:66-75 | on the trimmed groups of a match, lines 66-75 give group 1 as the type, the word of group 2 as the name, and the pointer flag exactly when group 2 starts with `*`; `Could not parse` is not reached |
| AccessorGenerator.ClassifyFromCaptures | src/getterSetter.js:39-75 | classification in terms of the two matches: neither gives `Invalid declaration`; the array match wins and a zero size gives `Invalid array size`; otherwise the declaration is built from the chosen groups |
| AccessorGenerator.ClassifyZeroSize | src/getterSetter.js:52-59 | an array match with an all-zero size is rejected as an invalid array size |
| AccessorGenerator.ClassifyShape | src/getterSetter.js:63-75 | `Could not parse` is never produced; an accepted name is a non-empty word and an accepted type has no `*` |
| AccessorGenerator.ClassifyRejects | src/getterSetter.js:39-60 | `Invalid declaration` exactly when neither pattern matches anywhere; `Invalid array size` exactly when the array pattern matches with an all-zero size; no other rejection; the array flag is set exactly when the array pattern matches |
| AccessorGenerator.GenBlockByKind | src/getterSetter.js:160-189 | the five branches of `genBlock` are one template; the getter's return type and the setter's parameter type are chosen by the type kind |
| AccessorGenerator.InlineBlockWithoutClass | src/getterSetter.js:160-163 | with an empty class name the inline block equals the out-of-line block |
| AccessorGenerator.InitializationByKind | src/getterSetter.js:198-209 | a non-pointer member is initialized to its kind's value (`false`, `'\0'`, `""`, `0`, `{}`) |
| AccessorGenerator.ProcessLineByCategory | src/getterSetter.js:77-209 | an accepted line yields, by category: for a pointer, `<type>*` accessors with a `p`-prefixed parameter and `nullptr`; for a char array, `strcpy`/`memset`; for any other array, only the unsupported-type warning; for a normal member, the `genBlock` pair and its kind's initializer. Inline text for pointers and char arrays appears only with a non-blank class name |
| AccessorGenerator.FragmentComment | src/getterSetter.js:126-186 | every fragment's code starts with `// For <name>` |
| AccessorGenerator.EmitInit | src/getterSetter.js:130-209 | a fragment's initializer is `nullptr` for pointers, `memset` for char arrays, and the line-198 chain otherwise |
| AccessorGenerator.InitIsOneLine | src/getterSetter.js:130-209 | every initializer is exactly one line ending in `\n` |
| AccessorGenerator.FragmentInit | src/getterSetter.js:130-209 | every fragment adds exactly one initialization line |
| GetterSetterGeneration.NonBlankKept | src/getterSetter.js:23 | every kept line is non-blank |
| GetterSetterGeneration.NonBlankEmpty | src/getterSetter.js:23 | no line is kept exactly when every line is white space |
| GetterSetterGeneration.NonBlankAppend | src/getterSetter.js:23 | filtering works line by line: filtering a concatenation concatenates the filtered parts |
| GetterSetterGeneration.NonBlankSingle | src/getterSetter.js:23 | a single line is kept exactly when it does not trim to nothing |
| GetterSetterGeneration.OutcomePerLine | src/getterSetter.js:36-37 | on filtered lines the blank test of line 37 never fires, so each kept line gives exactly one outcome |
| GetterSetterGeneration.OutcomesOfPrefix | src/getterSetter.js:35-37 | one more line adds its outcome at the end, and a blank line adds nothing |
| GetterSetterGeneration.GenerateGettersSetters | src/getterSetter.js:22-224 | the loop's accumulators equal the fold of the outcomes of the lines seen so far, so the result is the outputs that `NoInputExactly` and `ProducedOutputs` describe |
| GetterSetterGeneration.NoInputExactly | src/getterSetter.js:23-32 | the early return happens exactly when the input is all white space (line breaks included), and then the only output is the single no-declarations warning |
| GetterSetterGeneration.AccumulateByLine | src/getterSetter.js:35-210 | the accumulated code, inline code and initializers are the fragments' texts joined in line order, and the warnings are the rejected lines' messages in order |
| GetterSetterGeneration.OneEntryPerOutcome | src/getterSetter.js:35-210 | each outcome is one warning or one fragment |
| GetterSetterGeneration.InitLinesPerFragment | src/getterSetter.js:130-209 | the initialization text has as many lines as fragments |
| GetterSetterGeneration.ProducedOutputs | src/getterSetter.js:214-224 | the outputs are the line-order contributions; warnings plus blocks equal the non-blank lines; there is one initializer line per block; inline code is shown, and the notice hidden, exactly when the class name is not blank |
| DeclarationScenarios.ClassifyIntExample | src/getterSetter.js:39-75 | `int mcsi_Magi;` is a standard, non-pointer, non-array declaration of type `int` named `mcsi_Magi` |
| DeclarationScenarios.IntExample | src/getterSetter.js:77-209 | that line, with no class name, gets the numeric `genBlock` with name `Magi` and prefix `siL` as both code and inline code, and the initializer `mcsi_Magi = 0;` |
| DeclarationScenarios.NoSizeExample | src/getterSetter.js:39-45 | `char buf[];` matches neither pattern and is an invalid declaration |
| DeclarationScenarios.ZeroSizeExample | src/getterSetter.js:52-59 | `char mcac_Buf[0];` is rejected as an invalid array size |

## Left out

- React state, hooks and the JSX around the function are not modelled. The outputs are returned as a value. When no line is left (`NoInput`), only the warnings are set, and the other outputs keep their earlier values, which the model does not track.
- `copyToClipboard` and `clearAll` are not modelled. They are UI actions, and the clipboard is I/O.
- The `.` of line 83 is read as any character. `.` refuses line terminators, but the names the pattern is applied to are word characters only (`AccessorGenerator.ClassifyShape`), so this makes no difference.
- `toUpperCase` is modelled for ASCII only. It is applied to the first character of a word, which is ASCII.
- Strings are sequences of Unicode code points, not UTF-16 units. That matters only for characters outside the basic plane, and none of them can be part of an accepted declaration.
- The `isNaN(Number(arraySize))` test of line 57 is left out. Group 3 is a non-empty digit string, so it is never NaN, and `Number(...) <= 0` holds exactly when its value is zero (`DecimalValue`).
- AccessorGenerator.Initialization keeps its pointer arm (line 198) but is only ever called with `isPointer` false, because pointers return at line 137.

## Behaviour of the code worth knowing

- When the prefix pattern does not match, the prefix stays `siL` (line 81). So `mb_Active`, which holds no code between its letter and `_`, gets `siL`.
- The `Could not parse declaration` check (lines 72-75) can never fire. Group 1 cannot contain `*`, and both groups keep a word after stripping.
- `char buf[];` is an invalid declaration: neither pattern accepts an empty size, so the size check of line 57 is not reached.
- Input that is only white space sets the single warning and returns (lines 29-32). The other outputs keep what they held.
- The type tests are substring tests, so a type such as `Point` counts as numeric because it contains `int`.
- The `default` branch of the switch (line 108) is unreachable.
- Class-scoped pointer and char-array accessors are written with `inline\n ` (with a space) and are shown only when the trimmed class name is non-empty. `genBlock` writes `inline\n` with no space and tests the untrimmed class name.
