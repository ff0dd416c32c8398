# Config edit engine for unit presets

This Dafny project models the configuration-edit engine of the Phantom Brigade mod
`ConfigEditUnitPresets` and proves properties of it. The engine lets mods change the game's
unit presets in two ways:

- **Overrides** replace whole config containers by key.
- **Edit scripts** are lists of `(path, value)` directives. Each directive walks a dotted field
  path through the object graph of one config container. List elements are addressed by index
  and dictionary entries by key.

A directive's value may end with an operator token:

| token | operation |
|---|---|
| `!+` | Insert |
| `!-` | Remove |
| `!d` | DefaultValue |
| none | Overwrite |

How the value is parsed depends on the target's type:

- a string;
- a bool, case-insensitive `"true"`;
- a 32-bit int;
- a float;
- a vector `(x,y[,z[,w]])`;
- a member of a `HashSet<string>`;
- a default instance, optionally selected by a `!tag`.

The mod also adds a trailing `/` to the unit preset path while its edits are applied. Afterwards
it first drops the unit preset change files from the mod's loaded data and then removes the
trailing `/` again.

How the model is built:

- **Object graph.** The game's object graph is an explicit heap (`ObjectGraph.Heap`) of records,
  lists, dictionaries and string sets.
- **Reflection.** A `Schema` replaces reflection. It gives the declared field types, the base
  types, the abstract types, the tag table and the float parser.
- **Exceptions.** An exception is an outcome, `Threw`, and the graph keeps every change made
  before it. Nothing in the edit engine catches exceptions, so `ApplyEdit` and `ApplyEdits` stop
  at the first one.

The model has two layers:

- **Pure layer.** Each operation is a function of the graph before it. These are in
  `EditOperations`, `PathWalker`, `FieldEdit`, `ConfigMods` and the `UnitPresets` functions.
  Their properties are proved as lemmas in `WalkerProperties`, `FieldEditProperties`,
  `ConfigMods` and `UnitPresets`.
- **Imperative layer.** These parts change state step by step, as the source does:
  - `ModManagerFix.ConfigStore`, whose fields are the keyed roots (`dataInternal`) and the heap;
  - `UnitPresets.PathsData`, the path table and its inverse;
  - `UnitPresets.UnloadConfigChangeFiles`;
  - the array loop of `ModManagerFix.ParseVectorValue`.

  Each method's `ensures` ties its result and new state to the pure function of the old state.

## Model

| member | source | states |
|---|---|---|
| EditOperations.TokensExclusive | ModManagerFix.cs:58-60 | a value ends with at most one of the three operator tokens, so the order in which the operator table is searched never matters |
| EditOperations.ParseOperation | ModManagerFix.cs:380-391 | a value ending with `!+`, `!-` or `!d` selects Insert, Remove or DefaultValue. The value that remains has every occurrence of the token removed, not only the suffix, and then its trailing spaces trimmed. A value ending with no token is an Overwrite and is kept as it is |
| EditOperations.ParseOperationRoundTrip | ModManagerFix.cs:380-391 | a value with no `!` and no trailing space, followed by a token, parses back to that operation and that value |
| FieldEditProperties.PlainValueOverwrites | ModManagerFix.cs:380-391 | a value whose last character is not `+`, `-` or `d` is an Overwrite of the whole value |
| Strings.RemoveAll | ModManagerFix.cs:387 | `Replace(token, "")` never lengthens the text, and leaves it alone when the token's first character does not occur in it |
| Strings.RemoveAllAppended | ModManagerFix.cs:387 | removing a token that was appended to a text that cannot start it gives the text back |
| Strings.TrimEnd | ModManagerFix.cs:387 | `TrimEnd(c)` gives a prefix that does not end with `c`, and every character it dropped is `c` |
| Strings.TrimEndAppended | UnitPresets.cs:126 | trimming a text that does not end with `c` after appending copies of `c` gives the text back |
| Strings.Split | ModManagerFix.cs:395 | `Split(sep)` gives at least one part, no part contains the separator, and joining the parts with it gives the text back |
| Strings.SplitWithoutSeparator | ModManagerFix.cs:395 | a text without the separator splits into itself alone |
| Strings.SplitAtSeparator | ModManagerFix.cs:395 | splitting at the first separator gives the head, then the split of the rest |
| Strings.SplitJoin | ModManagerFix.cs:841 | Split undoes Join when no part contains the separator |
| Numbers.ParseInt32 | ModManagerFix.cs:727-747 | `int.TryParse` succeeds only with a value in the 32-bit range |
| Numbers.Digits | ModManagerFix.cs:727-747 | the decimal digits of a natural number form a non-empty run of digits |
| Numbers.ParseFormat | ModManagerFix.cs:727-747 | every 32-bit integer, printed by `int.ToString()`, parses back to itself |
| ObjectGraph.RuntimeType | ModManagerFix.cs:393-436 | `GetType()` of a value: none for null or a dangling reference; a list, dictionary or record type only for a reference to such an object |
| ObjectGraph.Allocate | ModManagerFix.cs:372 | a new object gets the next free reference and nothing else in the graph changes |
| ObjectGraph.CreateInstance | ModManagerFix.cs:372 | `Activator.CreateInstance` gives the zero of a value type. For a reference type it gives a fresh object of exactly that type and nothing else changes. It throws, always MissingMethod, exactly for `string` and for abstract types |
| ObjectGraph.WriteSlot | ModManagerFix.cs:655-704 | each setter changes only its own object: `list[index] = v` (in range, else it throws), `map[key] = v` (string keys only, else it throws) or `field.SetValue(owner, v)` |
| PathWalker.EditList | ModManagerFix.cs:477-528 | Insert, Remove and the others on a list index. A refusal changes nothing. It never yields the guard's Ignored outcome |
| PathWalker.ProduceListElement | ModManagerFix.cs:438-475 | an index that is not a non-negative 32-bit integer is refused and changes nothing. An in-range index goes on without changing the graph before the last segment, and on the last segment for Overwrite and DefaultValue. An index past the end before the last segment is refused. A step that goes on reaches exactly the element at the parsed index, with the list as parent and the list's element type as target type |
| PathWalker.EditMap | ModManagerFix.cs:572-631 | Overwrite and DefaultValue pass through unchanged. Remove always stops, and an absent key is refused. Insert on a present key changes nothing and continues only when there is a value. The key and value types are kept |
| PathWalker.ProduceMapEntry | ModManagerFix.cs:530-570 | a missing key before the last segment is refused and changes nothing. A present key before the last segment goes on, and so does any key on the last segment for Overwrite and DefaultValue, without changing the graph. A step that goes on reaches exactly the entry for the key, with the dictionary as parent and its value type as target type |
| PathWalker.ProduceField | ModManagerFix.cs:633-653 | a field segment stops exactly when the runtime type and its bases have no such field. Otherwise it reaches that field of the target, with its declared type as target type |
| PathWalker.StepSegment | ModManagerFix.cs:393-436 | one loop iteration of WalkFieldPath. Only the last segment can change the graph. A refusal changes nothing. It never yields Ignored |
| WalkerProperties.ListInsertShifts | ModManagerFix.cs:477-528 | list Insert puts a new default element at the index, or at the end when the index is past it. Earlier elements stay and later ones move one place right. No other object changes. It goes on to the value write exactly when the value is not white space |
| WalkerProperties.ListRemoveAt | ModManagerFix.cs:477-528 | list Remove of an index in range removes exactly that element and stops. Out of range it is refused and nothing changes |
| WalkerProperties.TerminalIndexPastEndThrows | ModManagerFix.cs:438-528 | on the last segment an Overwrite or DefaultValue index is not checked against the list, and an Insert past the end appends. Either way, reading the element past the end throws ArgumentOutOfRange. Only the Insert has changed the list by then |
| WalkerProperties.MapInsert | ModManagerFix.cs:572-631 | dictionary Insert: a present key changes nothing. An absent key is refused for non-string keys, and otherwise gets a new default value with nothing else changed. It continues exactly when the value is not white space |
| WalkerProperties.MapRemove | ModManagerFix.cs:572-631 | dictionary Remove: an absent key is refused. A present key is deleted, alone, and the walk stops |
| WalkerProperties.RemoveThenDescendFails | ModManagerFix.cs:530-570 | an entry that a Remove deleted cannot be descended into by a later directive |
| WalkerProperties.StepFailures | ModManagerFix.cs:393-475 | each cause refuses a step and leaves the graph as it was: a null target, an unknown field, an index that is not a non-negative integer, an index past the end before the last segment, a missing key before the last segment. Conversely, a step before the last segment stops only for one of these causes |
| PathWalker.Walk | ModManagerFix.cs:393-436 | after the last segment the walk hands on its state. It never yields the outcome reserved for the early guard. A refused walk has changed nothing, and without Insert the graph changes only when the walk ends the directive with a Remove |
| PathWalker.WalkFieldPath | ModManagerFix.cs:393-436 | the same three promises for the walk from the container root |
| PathWalker.ValidateEditState | ModManagerFix.cs:655-704 | it throws NullReference exactly when the parent is null. An accepted slot belongs to the parent, and it is a list slot exactly when the parent is a list and an index is set, at that index. A dictionary slot is at the state's key and a field slot at its field. Every other refusal is a missing index, key or field |
| WalkerProperties.ListElementAddressed | ModManagerFix.cs:438-475 | a list step that descends leaves only an in-range index live |
| WalkerProperties.MapEntryAddressed | ModManagerFix.cs:530-570 | a dictionary step that descends leaves only the key live |
| WalkerProperties.FieldAddressed | ModManagerFix.cs:633-653 | a field step that descends leaves only the field live |
| WalkerProperties.StepAddressed | ModManagerFix.cs:393-436 | after every step that descends, exactly one addressing datum is live: the one that fits the parent's shape |
| WalkerProperties.WalkAddressed | ModManagerFix.cs:393-436 | a successful walk of a non-empty path leaves exactly one addressing datum live |
| WalkerProperties.ValidateAddressed | ModManagerFix.cs:655-704 | with one datum live, ValidateEditState yields the setter for exactly that slot. The setter works for lists and records, and for dictionaries exactly when their keys are strings |
| WalkerProperties.WalkThenValidate | ModManagerFix.cs:322-331 | after a successful walk, ValidateEditState never fails |
| FieldEdit.IntValue | ModManagerFix.cs:727-747 | the int updater yields a 32-bit integer. It refuses exactly when the operation is not DefaultValue and `int.TryParse` fails, and otherwise yields the parsed integer |
| FieldEdit.FloatValue | ModManagerFix.cs:749-770 | the float updater refuses exactly when the operation is not DefaultValue and `float.TryParse` fails, and otherwise yields the parsed float |
| FieldEdit.ParseComponents | ModManagerFix.cs:826-866 | all components parse, or the vector is refused |
| FieldEdit.ParseVector | ModManagerFix.cs:826-866 | text without the parentheses is refused. A wrong number of comma-separated parts is refused. Otherwise the literal is accepted exactly when every part parses as a float, and the components are the parsed parts in order |
| FieldEdit.UpdateValue | ModManagerFix.cs:706-824 | DefaultValue gives the type's zero (null, false, 0, 0f or the zero vector). String and bool never refuse. A bool is true exactly when the value equals "true" ignoring case. Otherwise a string is the value verbatim, an int or float is refused exactly when its parse fails and is the parsed number when accepted, and a vector is ParseVector's result |
| FieldEdit.UpdateScalarField | ModManagerFix.cs:706-824 | an updater refuses exactly when parsing fails, and then writes nothing. Otherwise it calls the setter once with the parsed value: when the setter succeeds the result is Edited with exactly the setter's graph, and when it throws that exception ends the directive with the graph unchanged |
| FieldEdit.UpdateHashSet | ModManagerFix.cs:868-915 | only Insert and Remove are allowed. A refusal changes nothing. An edit adds an absent member or removes a present one, changing only that set |
| FieldEdit.DefaultInstanceEdit | ModManagerFix.cs:339-377 | a type with no updater is refused unless the operation is DefaultValue. A slot without field info and an unregistered tag are refused. A refusal changes nothing. A write stores the new instance made by `Activator.CreateInstance` in the field of a record parent, through the field setter, and the instance's type is assignable to the field |
| FieldEdit.ApplyToSlot | ModManagerFix.cs:333-377 | the updater dispatch never yields Ignored, and a refusal changes nothing |
| FieldEditProperties.IntRoundTrip | ModManagerFix.cs:727-747 | the int updater reads back what `int.ToString()` prints |
| FieldEdit.ParenthesesTest | ModManagerFix.cs:826-840 | the parentheses test is equivalent to `StartsWith("(")` and `EndsWith(")")` |
| FieldEdit.ProcessFieldEdit | ModManagerFix.cs:304-377 | a directive is skipped, as Ignored, exactly when its path or its value is empty, and a skipped one changes nothing. A refused directive that is not an Insert leaves the graph as it was |
| FieldEditProperties.VectorRoundTrip | ModManagerFix.cs:826-866 | `(c1,...,cN)` built from N comma-free component texts that parse gives the vector of the parsed components |
| FieldEditProperties.VectorArityRefused | ModManagerFix.cs:826-866 | a literal with the wrong number of components is refused, whatever the components are |
| FieldEditProperties.HashSetInsertIdempotent | ModManagerFix.cs:868-915 | a second Insert of the same string is refused and leaves the set as the first left it |
| FieldEditProperties.HashSetInsertThenRemove | ModManagerFix.cs:868-915 | removing a string that an Insert just added restores the graph |
| FieldEditProperties.HashSetRemoveThenInsert | ModManagerFix.cs:868-915 | inserting a string that a Remove just took out restores the graph |
| FieldEditProperties.TaggedDefaultInstance | ModManagerFix.cs:359-377 | `!d` with a registered `!tag` puts a new default object of the tag's type into the field, and nothing else changes |
| FieldEditProperties.UntaggedDefaultInstance | ModManagerFix.cs:359-377 | without a tag, the new object is of the field's declared type |
| FieldEditProperties.UnknownTagRefused | ModManagerFix.cs:359-369 | an unregistered tag is refused and nothing is created |
| FieldEditProperties.RootFieldEdit | ModManagerFix.cs:304-337 | a directive on a scalar or vector field of the root: a parse failure is refused with nothing changed, and otherwise exactly that field is set |
| FieldEditProperties.OverwriteIntField | ModManagerFix.cs:304-337 | overwriting an int field with a printed integer stores that integer |
| FieldEditProperties.TwoSegmentPath | ModManagerFix.cs:395 | `field.key` splits into the field and the key |
| FieldEditProperties.WalkToDictionaryEntry | ModManagerFix.cs:393-436 | the walk of `field.key` through a dictionary field of the root ends on the key's entry of the dictionary that EditMap left |
| FieldEditProperties.IntEntryUpdate | ModManagerFix.cs:727-747 | the int updater on a string-keyed entry refuses with nothing written, or stores the parsed value under the key |
| FieldEditProperties.OverwriteMissingKeyAddsEntry | ModManagerFix.cs:572-631 | overwriting an absent key is not refused: the setter adds the key with the parsed value |
| FieldEditProperties.InsertedEntrySurvivesRefusal | ModManagerFix.cs:572-631 | Insert of a new key with a value that does not parse is refused, yet the new entry stays, at 0 |
| ConfigMods.ApplyOverrides | ModManagerFix.cs:182-211 | no key is lost, and every added key is the key of a selected override |
| ConfigMods.LastOverrideWins | ModManagerFix.cs:182-211 | after the overrides, a key holds the container of the last selected override for it, or else its old root. No key is lost, and only keys of selected overrides are added |
| ConfigMods.RunDirectives | ModManagerFix.cs:289-301 | at most one outcome per directive. The first exception ends the run and is the last outcome, and a run shorter than the script ended with one |
| ConfigMods.RunDirectivesInOrder | ModManagerFix.cs:289-301 | directives run in order: running `a + b` is running `a`, then, unless `a` ended with an exception, running `b` on the graph `a` left |
| ConfigMods.ApplyEdit | ModManagerFix.cs:246-302 | a missing key or an empty script changes nothing and reports nothing. `removed` deletes exactly the key and changes nothing else. The graph changes only for a present key that is not removed |
| ConfigMods.ApplyEdits | ModManagerFix.cs:213-244 | an exception can only be the last outcome |
| ConfigMods.ApplyEditsInOrder | ModManagerFix.cs:213-244 | scripts run in order: applying `a + b` is applying `a`, then, unless it ended with an exception, applying `b` to the store `a` left. After an exception no later script, not even a removal, has any effect |
| ConfigMods.EditsOnlyRemoveKeys | ModManagerFix.cs:246-302 | edit scripts only remove keys; they never add one or change the root a key refers to |
| ConfigMods.RemovedRootIgnoresLaterEdits | ModManagerFix.cs:252-264 | once a script removes a root, a later script for that key does nothing |
| ConfigMods.OtherTypesUntouched | ModManagerFix.cs:182-244 | with no selected override and no chosen script, nothing changes |
| ModManagerFix.ParseVectorValue | ModManagerFix.cs:826-866 | the array-filling parse loop computes exactly ParseVector |
| ModManagerFix.ConfigStore.constructor | ModManagerFix.cs:182-302 | the store holds the given roots and graph |
| ModManagerFix.ConfigStore.Allocate | ModManagerFix.cs:372 | in-place allocation equals ObjectGraph.Allocate on the old graph |
| ModManagerFix.ConfigStore.Instantiate | ModManagerFix.cs:372 | in-place `Activator.CreateInstance` equals ObjectGraph.CreateInstance |
| ModManagerFix.ConfigStore.EditList | ModManagerFix.cs:477-528 | the in-place list edit equals PathWalker.EditList on the old graph, and the roots are unchanged |
| ModManagerFix.ConfigStore.ProduceListElement | ModManagerFix.cs:438-475 | the in-place list step equals PathWalker.ProduceListElement |
| ModManagerFix.ConfigStore.EditMap | ModManagerFix.cs:572-631 | the in-place dictionary edit equals PathWalker.EditMap |
| ModManagerFix.ConfigStore.ProduceMapEntry | ModManagerFix.cs:530-570 | the in-place dictionary step equals PathWalker.ProduceMapEntry |
| ModManagerFix.ConfigStore.WalkFieldPath | ModManagerFix.cs:393-436 | the segment loop equals PathWalker.WalkFieldPath on the old graph |
| ModManagerFix.ConfigStore.Write | ModManagerFix.cs:655-704 | the setter equals ObjectGraph.WriteSlot, and a failed write changes nothing |
| ModManagerFix.ConfigStore.UpdateScalarField | ModManagerFix.cs:706-824 | the in-place updater equals FieldEdit.UpdateScalarField, with vectors parsed by the array loop |
| ModManagerFix.ConfigStore.UpdateHashSet | ModManagerFix.cs:868-915 | the in-place set edit equals FieldEdit.UpdateHashSet |
| ModManagerFix.ConfigStore.DefaultInstance | ModManagerFix.cs:339-377 | the in-place default-instance write equals FieldEdit.DefaultInstanceEdit |
| ModManagerFix.ConfigStore.ProcessFieldEdit | ModManagerFix.cs:304-377 | one directive in place equals FieldEdit.ProcessFieldEdit |
| ModManagerFix.ConfigStore.ApplyOverrides | ModManagerFix.cs:182-211 | the override loop reassigns the roots as ConfigMods.ApplyOverrides does, and the graph is unchanged |
| ModManagerFix.ConfigStore.ApplyEdit | ModManagerFix.cs:246-302 | the directive loop equals ConfigMods.ApplyEdit |
| ModManagerFix.ConfigStore.ApplyEdits | ModManagerFix.cs:213-244 | the script loop equals ConfigMods.ApplyEdits |
| UnitPresets.Repath | UnitPresets.cs:107-110 | replacing the path: the table gets the new path. The inverse loses the old path and gains the new one, unless the new one is already there, in which case `Add` throws ArgumentException after the removal and the table update |
| UnitPresets.Modified | UnitPresets.cs:99-115 | a missing key throws KeyNotFound and changes nothing. A path already ending in `/` is left alone. Otherwise the path `v` is replaced by `v + "/"` in both tables, as Repath states |
| UnitPresets.Unmodified | UnitPresets.cs:117-133 | a missing key throws and changes nothing. A path not ending in `/` is left alone. Otherwise the path `v` is replaced by `v` without its trailing `/`s in both tables, and the new path does not end in `/` |
| UnitPresets.ToggleTouchesOnlyItsEntries | UnitPresets.cs:99-133 | both toggles change only the unit preset entry of the table and the inverse entries of its old and new path |
| UnitPresets.ModifyKeepsConsistent | UnitPresets.cs:99-115 | Modify keeps the table and its inverse consistent when the new path is not already in the inverse |
| UnitPresets.UnmodifyKeepsConsistent | UnitPresets.cs:117-133 | Unmodify keeps them consistent under the same proviso |
| UnitPresets.ModifyUnmodifyRoundTrip | UnitPresets.cs:17-30 | Modify then Unmodify restores both tables when the path did not end in `/` and the tables were consistent |
| UnitPresets.SlashedPathDoesNotRoundTrip | UnitPresets.cs:17-30 | a path that already ended in `/` comes back without its trailing slashes |
| UnitPresets.PathsData.constructor | UnitPresets.cs:99-133 | the live tables hold the given maps |
| UnitPresets.PathsData.ModifyUnitPresetPath | UnitPresets.cs:99-115 | the step-by-step in-place toggle equals Modified on the old tables |
| UnitPresets.PathsData.UnmodifyUnitPresetPath | UnitPresets.cs:117-133 | the step-by-step in-place toggle equals Unmodified on the old tables |
| UnitPresets.WithoutType | UnitPresets.cs:83-88 | the `Where(m => m.type != t)` filter throws NullReference exactly when an entry is null. Otherwise every kept entry is of another type |
| UnitPresets.WithoutTypeMembers | UnitPresets.cs:83-88 | an entry survives exactly when it is in the list and of another type |
| UnitPresets.WithoutTypeConcat | UnitPresets.cs:83-88 | the filter keeps relative order: filtering a concatenation concatenates the filtered parts |
| UnitPresets.WithoutTypeIdempotent | UnitPresets.cs:83-88 | filtering twice is filtering once |
| UnitPresets.LoadedModData.constructor | UnitPresets.cs:74-97 | the loaded data holds the given overrides and edit scripts |
| UnitPresets.UnloadConfigChangeFiles | UnitPresets.cs:74-97 | other mods are untouched. A missing mod changes nothing. The overrides are filtered when they can be. The edit scripts are filtered only when both filters succeed. An exception keeps what was already reassigned |

## Left out

- Logging is not modelled: `Report`, `Debug.LogWarning` and `FileLog` only write text, and
  ApplyEdits' log indices are part of that.
- Reflection is replaced by `ObjectGraph.Schema`. It covers field lookup by name, `GetType()`,
  `IsAssignableFrom` and `is T` (as `Assignable`), and `Activator.CreateInstance`.
- ObjectGraph.CreateInstance: a record type without a public parameterless constructor, for which
  .NET throws MissingMethodException as for an abstract class, is modelled by listing it in
  `Schema.abstractTypes`.
- Static and primitive fields are not modelled.
- Arrays reached through `IList` are not modelled.
- Writes into struct fields are not modelled.
- A new object holds each field at `default(T)`: field initialisers and constructor bodies are not
  modelled.
- Floating point is not modelled. `float.TryParse` is the parameter `Schema.parseFloat`, and a
  float is an opaque value; vectors are sequences of them.
- String comparison is ordinal. The culture-sensitive `StartsWith`/`EndsWith` overloads that the
  source calls are modelled as ordinal.
- `Char.IsWhiteSpace` uses the Unicode white-space set. Case-insensitive comparison folds ASCII
  letters only.
- Null is not modelled for a directive's path or value, or for an entry of a directive list. A
  null path or value is the empty text, which the guard skips in the same way. A null entry in a
  directive list, which would throw, is not modelled. (A null edit script and a null script body
  are modelled as `None` and skipped.) A null override or edit key,
  for which `ContainsKey` throws ArgumentNullException (ModManagerFix.cs:199, 253), is not
  modelled either: keys are always text.
- `ProcessConfigModsForMultiLinker` (ModManagerFix.cs:124-180) is left out. Its guards, the
  enumeration of mods and the LINQ plumbing are outside the model. ApplyOverrides and ApplyEdits
  are modelled for one mod's lists, in list order.
- `Initialize` is left out. Its tables are constants: the operator tokens, the types with an
  updater, the allowed set operations and the tag table, which is `Schema.tags`.
- `EditSpec.state` is threaded through the walk as a value instead of being mutated in place. The
  fields that exist only for messages (segment text, index, count) are dropped.
- `LoadAndProcessChanges` and the `try`/`finally` of `Update` (UnitPresets.cs:17-72) are left out:
  they load files and call game code. The round trip of the path toggle around them is
  `UnitPresets.ModifyUnmodifyRoundTrip`.
- Patch.cs is not part of this model: it is a Harmony hook that calls `Update`.
- The loaded mod lookup is a map from mod id to `LoadedModData`. The mod's id is a parameter.
- UnitPresets.UnloadConfigChangeFiles: a null entry is the only source of an exception in the
  filter that is modelled.
