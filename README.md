# vuf form validation — a Dafny model

This project models the engine of the `vuf` form library (generalworksinc/fvl).

A `VufForm` holds an ordered table of fields. Each field has a value, a type tag, a rule list and a `{ error, message }` verdict. The form also holds a one-way "armed" flag (`$startValid`) and a dictionary of emit handlers. On this state the engine:

- runs a field's rules against the built-in or registered validators and fills in the verdict from the locale's message templates (`isErrorField`);
- validates a group of fields, including `parent.child` names that reach into a nested form (`groupIsValid`);
- copies a plain object into the fields, normalising keys with `headLower`, honouring per-key override callbacks and building nested forms through the class's `gen` factory (`setData`);
- extracts the fields back into a plain object, with key allow and deny lists, blank filtering, Number coercion and key renaming (`getValueJson`, `getJson`, `getJsonHeadUpper`).

The engine exists three times in the repository:

- the Solid entry point `src/solid/mod.ts`;
- its legacy copy `solidjs/vufSolid.ts`, whose logic is the same;
- the Vue adapter `src/vue/mod.ts`.

The model has one engine with a `Variant` parameter (`Solid` or `Vue`). The Vue engine differs in these ways:

- it stores values directly;
- it tolerates unknown field names;
- it reads an empty rule tuple as the rule `''`;
- it turns a Number field that does not parse into `null`;
- it lets the exception from `Number()` of a symbol escape from `formatValue` (src/vue/mod.ts:272-278; `Extraction.Coerce`), where Solid stores `null`;
- it skips a `null` or `undefined` override callback in `setData` through `setFunc?.()` (src/vue/mod.ts:153; `Ingestion.IngestKey`), where Solid throws;
- it creates no field for an `undefined` config (src/vue/mod.ts:84; `Forms.VufForm.constructor`).

It also has no `groupIsValid`.

The core module supplies:

- the built-in validators (`required`, `maxLength`, `length`, `anyCondition`, `sameAs`, `integer`, `positiveInteger`, `isEmail`);
- the rule builder `makeRule`;
- the validator and message registry.

In `src/core/mod.ts` the registry operations are placeholders. Their behaviour here is the one the core's unit tests fix, and the table marks those rows as test-derived.

Modules, in dependency order:

- `Text`: decimal text, ASCII `headLower`/`headUpper`, first-occurrence `String.replace`, `Number()` parsing.
- `Values`: the value, field and form datatypes, and the JavaScript conversions `String()`, `Number()` and truthiness.
- `Validators`: the built-in validators, each returning `Pass`, `Fail` or `Throw`.
- `Registry`: `makeRule` and the registry class.
- `Extraction`: `extractData`, `formatValue`, `getValueJson`, `getJsonHeadUpper`.
- `Validation`: `isErrorField` as a function of the form.
- `Grouping`: `groupIsValid` as a function of the form.
- `Ingestion`: `setData` as a function of the form.
- `Forms`: the `VufForm` class. Its methods update the field table, flag and handlers in place and are proved against the functions above.

Nested forms are values: a field holds `Sub(form, derived)`, where `derived` records whether the instance's class is a subclass of `VufForm` (the instances `gen` returns say so through the factory's own flag). Emit handlers are held by identity, and what a call to one returns is a parameter (`Env.call`).

## Model

| member | source | states |
|---|---|---|
| Text.HeadLower | src/solid/mod.ts:66-67 | the empty string is unchanged; otherwise only the first character is lower-cased, and length and suffix are kept |
| Text.HeadUpper | src/solid/mod.ts:68-69 | the empty string is unchanged; otherwise only the first character is upper-cased, and length and suffix are kept |
| Text.HeadCaseFacts | solidjs/vufSolid.ts:37-38 | both functions are idempotent, and each undoes the other on a name whose head has the other case |
| Text.Utf16Length | src/core/validators.ts:16-19 | JavaScript's `.length` counts at least one and at most two code units per character |
| Text.Utf16LengthCounts | src/core/validators.ts:16-19 | `.length` equals the number of characters exactly when no character lies outside the Basic Multilingual Plane |
| Text.ReplaceFirstSpec | src/solid/mod.ts:310-312 | a string-pattern replace leaves text without the pattern alone, and otherwise replaces exactly the first occurrence, keeping the text before and after it |
| Text.IndexOf | src/solid/mod.ts:310 | the occurrence replace looks for is the first index where the pattern occurs, or none when it occurs nowhere |
| Text.NatTextValue | src/solid/mod.ts:311-312 | the placeholder index text `{i}` reads back as `i` |
| Text.ParseNumber | src/core/validators.ts:36 | `Number()` of text never throws, and blank text converts to 0 |
| Text.SignedDigitsParse | src/core/validators.ts:34-40 | `Number()` of an optionally signed digit string is its decimal value |
| Text.IntegerTextRoundTrip | src/core/validators.ts:34-40 | `Number(String(i))` is `i` for every integer `i` |
| Values.FieldIndex | src/solid/mod.ts:289 | the found position holds the name and no earlier field does; none means no field has the name |
| Values.NoRepeatsUnique | src/solid/mod.ts:96-108 | the field table's name check from the front holds exactly when no two fields share a name |
| Values.ValueOf | src/solid/mod.ts:148-150 | reading a field gives the value stored at the name's position, and nothing exactly when the name is not a field |
| Values.PutSpec | src/solid/mod.ts:253-255 | assigning a property makes it read the new value and leaves other names alone; the set of names gains that name; names stay unique |
| Values.LookupSpec | src/solid/mod.ts:222-224 | a property is absent exactly when no entry has that name, and a present one is some entry's value |
| Values.FalsyValues | src/solid/mod.ts:170 | the falsy values that make `setData` return early are exactly undefined, null, false, 0, NaN and `''`; null and undefined are falsy; arrays, objects, nested forms and symbols are truthy |
| Values.ToStr | src/solid/mod.ts:312 | implicit string conversion throws on a symbol, always succeeds on a non-array non-symbol, and is the identity on strings |
| Values.StringOf | src/core/validators.ts:13 | `String(v)` succeeds on everything but arrays that hold a symbol, and is never empty for a non-string scalar |
| Values.NumberOf | src/core/validators.ts:36 | `Number(v)` throws exactly on a symbol or an array whose text conversion throws |
| Values.Emit | src/solid/mod.ts:137-141 | emit returns the registered handler's result, and `null` without throwing when no handler is registered |
| Validators.RequiredCheck | src/core/validators.ts:11-14 | null and undefined fail; any other value throws iff `String(v)` throws and otherwise passes iff `String(v)` is non-empty, so numbers, booleans and objects pass (`0` and `false` too), a string passes iff non-empty, and an empty array fails |
| Validators.RequiredArrays | src/core/validators.ts:11-14 | on arrays the joined text decides: `[""]` fails and `["", ""]` passes |
| Validators.MaxLengthCheck | src/core/validators.ts:15-17 | throws iff `String(v)` throws; with a numeric limit, passes iff the text's length in UTF-16 code units is at most the limit |
| Validators.LengthCheck | src/core/validators.ts:18-20 | throws iff `String(v)` throws; passes iff the limit is exactly the text's length in UTF-16 code units |
| Validators.LengthBoundaries | src/core/validators.ts:15-20 | a `.length` of exactly `n` code units is accepted by `maxLength(n)` and `n + 1` is rejected; `length(n)` holds iff the `.length` is `n` |
| Validators.AstralLength | src/core/validators.ts:15-20 | a one-emoji string has `.length` 2: it fails `maxLength(1)` and passes `length(2)` |
| Validators.AnyConditionCheck | src/core/validators.ts:21-30 | null, undefined and `''` pass without calling emit; otherwise the outcome is the truthiness of `emit(funcName, value, message)`, and a throwing handler throws |
| Validators.EventKey | src/core/validators.ts:29 | a string event name is looked up as itself; a symbol finds no handler, since handlers are keyed by strings |
| Validators.IntegerCheck | src/core/validators.ts:34-40 | never throws; passes iff `Number(v)` is a finite whole number |
| Validators.PositiveIntegerCheck | src/core/validators.ts:41-49 | never throws; passes iff the value is an integer and not negative |
| Validators.IntegerSigns | src/core/validators.ts:41-49 | every integer passes `integer`; `positiveInteger` accepts 0 and every positive integer and rejects every negative one |
| Validators.IntegerTextPasses | src/core/validators.ts:34-49 | an integer's decimal text passes `integer`, and passes `positiveInteger` iff the integer is not negative |
| Validators.IsEmailCheck | src/core/validators.ts:50-57 | never throws; fails on non-strings and on strings whose `.length` is below 5 |
| Validators.IsEmailSpec | src/core/validators.ts:50-57 | passes iff the value is a string of `.length` at least 5 containing, anywhere, `local@domain.tld` with each part a non-empty run of non-space non-`@` characters |
| Validators.EmailScanSpec | src/core/validators.ts:55 | the scan from a position finds a match iff some match has its `@` at or after that position |
| Validators.MatchAtSpec | src/core/validators.ts:55 | a match with its `@` at a given index exists iff that character is `@`, both neighbours are word characters and the domain scan succeeds |
| Validators.DomainScanSpec | src/core/validators.ts:55 | the domain scan succeeds iff a `.` follows within the word run and a word character follows that `.` |
| Validators.DomainScanSound | src/core/validators.ts:55 | a successful domain scan yields the position of a qualifying `.` |
| Validators.DomainScanComplete | src/core/validators.ts:55 | a qualifying `.` makes the domain scan succeed |
| Validators.BaseValidatorsSpec | src/core/validators.ts:10-58 | the built-in map has exactly the eight names; `sameAs` always throws; `integer`, `positiveInteger` and `isEmail` never throw; `required` fails on nullish; `anyCondition` passes on nullish or `''` |
| Registry.MakeRule | src/core/mod.ts:14-16 | the tuple has length `k + 1`, its head is the name and its tail is the parameters in order |
| Registry.RuleOf | src/solid/mod.ts:302-306 | the engine reads an empty tuple as the empty rule, and a tuple's head as the rule name with the rest as parameters |
| Registry.MakeRuleRoundTrip | src/core/mod.ts:14-16 | a built tuple is read back as the same name and parameters; with no parameters it is the singleton `[name]` |
| Registry.Registry.constructor | __tests__/core_mod.test.js:18-21 | (test-derived) the registry starts with the built-in validators, the bundled dictionaries and the default locale |
| Registry.Registry.RegisterValidator | __tests__/core_mod.test.js:23-29 | (test-derived) afterwards the map sends the name to the function, and every other entry, the dictionaries and the locale are unchanged |
| Registry.Registry.OverrideValidator | __tests__/core_mod.test.js:31-39 | (test-derived) afterwards the map sends the name to the new function, and the names are the old ones plus that name |
| Registry.Registry.GetValidatorMap | __tests__/core_mod.test.js:18-21 | (test-derived) returns the current map, which includes `required` while the built-ins are present |
| Registry.Registry.SetMessages | __tests__/core_mod.test.js:63-66 | (test-derived) the locale's dictionary becomes exactly the given one; nothing else changes |
| Registry.Registry.MergeMessages | __tests__/core_mod.test.js:68-69 | (test-derived) the locale's dictionary gains the partial's keys, with the partial winning, and keeps every other existing key and value |
| Registry.Registry.SetLocale | __tests__/core_mod.test.js:51-53 | (test-derived) the current locale becomes the given one; validators and dictionaries are unchanged |
| Registry.Registry.GetLocale | __tests__/core_mod.test.js:51-53 | (test-derived) returns the current locale |
| Registry.Registry.GetMessages | __tests__/core_mod.test.js:58-61 | (test-derived) returns the dictionary of the given locale, or of the current one when none is given; an unknown locale gives the empty map |
| Registry.DictOf | __tests__/core_mod.test.js:58-61 | (test-derived) an unknown locale's dictionary is empty, and a known one is its stored dictionary |
| Registry.MessagesScenario | __tests__/core_mod.test.js:63-74 | (test-derived) on a new registry, `setMessages` then `getMessages` gives `{hello: world}`; after `mergeMessages` it gives `{hello: world, foo: bar}`; after `setLocale`, `getLocale` returns the locale and `getMessages()` gives `{hello: world, foo: bar}`; a locale nobody set reads as `{}` |
| Extraction.FilteredKeys | src/solid/mod.ts:240-250 | the target names are distinct fields; a non-empty `keys` selects exactly its names that are fields and overrides `exceptKeys`; otherwise it selects every field not in `exceptKeys` |
| Extraction.Except | src/solid/mod.ts:244-245 | a name survives iff it is in the list and not excluded |
| Extraction.KeepFields | src/solid/mod.ts:248-250 | keeps, once each, exactly the requested names that are fields |
| Extraction.Coerce | src/vue/mod.ts:272-277 | only Number-typed fields are converted; a parsable value becomes its number; an unparsable one becomes NaN in Solid and null in Vue; a symbol gives null in Solid (caught) and throws in Vue |
| Extraction.FormatValue | src/solid/mod.ts:372-395 | arrays map element-wise keeping their length, a nested form whose class derives from `VufForm` becomes exactly its `getJson()` (a plain object), while one built directly from `VufForm` fails the prototype test and is coerced like any other value; anything else is coerced by the field's type; Solid never throws |
| Extraction.ArrayFormElements | src/solid/mod.ts:375-385 | in an array, a subclass instance becomes its `getJson()` and a direct `VufForm` instance is left as the form object |
| Extraction.FormatItems | src/solid/mod.ts:375-379 | each array element is formatted as an untyped value, in order, with the length kept |
| Extraction.ExtractValue | src/solid/mod.ts:404-416 | a value is kept iff it is not nullish, and not `''` when blanks are ignored; a dropped value gives no entry; a kept value other than a nested form is stored as `formatValue` gives it (so Number-typed values are coerced and arrays formatted); a nested form contributes its `getJson()` coerced by the field's type; a kept plain untyped scalar is stored as itself |
| Extraction.FieldEntry | src/solid/mod.ts:402-417 | a name contributes an entry iff it is not `$`-prefixed, is a field, and its value is kept |
| Extraction.ExtractData | src/solid/mod.ts:397-419 | the Solid extraction never throws |
| Extraction.ExtractDataValues | src/solid/mod.ts:397-419 | the value stored under a targeted name is what that name's entry gives, which for a non-`$` field is the ExtractValue of its stored value; names not targeted get nothing |
| Extraction.Collect | src/solid/mod.ts:401-418 | the object is built iff no entry computation throws |
| Extraction.CollectMembers | src/solid/mod.ts:401-418 | the built object has a property exactly for each listed name whose entry is kept |
| Extraction.CollectValues | src/solid/mod.ts:401-418 | the built object stores under each listed name exactly the value its entry keeps, and nothing under other names |
| Extraction.CollectUnique | src/solid/mod.ts:401-418 | the built object names each property once |
| Extraction.ExtractDataMembers | src/solid/mod.ts:402-417 | the extraction has a property for `k` iff `k` is targeted, not `$`-prefixed, a field, and its value is kept |
| Extraction.ExtractDataUnique | src/solid/mod.ts:397-419 | the extraction names each property once |
| Extraction.GetValueJson | src/solid/mod.ts:234-259 | getValueJson, which getJson (src/solid/mod.ts:216-218) returns unchanged, is always an object in Solid |
| Extraction.GetValueJsonValues | src/solid/mod.ts:234-259 | without `format`, the value under each extracted field name is the ExtractValue of that field's stored value, so the result carries the fields' formatted values; names not extracted are absent |
| Extraction.GetJsonHeadUpper | src/solid/mod.ts:219-226 | is defined exactly when getValueJson is, and is an object |
| Extraction.RenameNames | src/vue/mod.ts:186-190 | the renamed object's names are exactly the images of the original names |
| Extraction.RenameInjective | src/vue/mod.ts:186-190 | when renaming sends distinct names to distinct names, each value moves unchanged to its renamed key |
| Extraction.RenameUnique | src/vue/mod.ts:186-190 | renaming never produces a name twice |
| Extraction.JsonUnique | src/vue/mod.ts:174-192 | getValueJson's result names each key once |
| Extraction.FormatKeys | src/vue/mod.ts:186-190 | with `format`, `k` is a key of the result iff `format` sends some extracted name to `k`, so an extracted name survives only if some name is formatted to it |
| Extraction.HeadUpperKeys | solidjs/vufSolid.ts:136-141 | getJsonHeadUpper's keys are exactly the headUpper images of getValueJson's keys, each once |
| Extraction.HeadUpperValues | solidjs/vufSolid.ts:136-141 | when no two keys collide under headUpper, every value is kept under its renamed key |
| Extraction.JsonIgnoresVerdicts | src/solid/mod.ts:234-259 | getValueJson depends only on the fields' names, values and definitions, not on verdicts or evaluated marks |
| Validation.HandleOf | src/core/types.ts:2-6 | the validator's form handle exposes the form's emit handlers, the host's call behaviour and the form's field data |
| Validation.HandleIgnoresVerdicts | src/core/types.ts:2-6 | forms that agree on field data and handlers give validators the same handle |
| Validation.MadeRuleResolves | src/core/mod.ts:14-16 | a rule built by `makeRule` resolves, in either engine, to the name and parameters it was built from |
| Validation.CurrentEnv | src/solid/mod.ts:293-294 | isErrorField validates with the registry's validator map and the current locale's dictionary, empty when that locale has none |
| Validation.ResolveRule | src/vue/mod.ts:227-232 | a bare name has no parameters; a tuple splits into head and parameters; an empty tuple is the rule `undefined` in Solid and `''` in Vue, with no parameters |
| Validation.Template | src/solid/mod.ts:308-315 | without a non-empty template the message is `Validation error: <name>`; building the message throws iff a template exists and some parameter cannot be converted to text |
| Validation.FillParams | src/solid/mod.ts:311-312 | the placeholder pass fails iff one of the remaining parameters cannot be converted to text |
| Validation.TemplateExample | src/solid/mod.ts:308-315 | with the template `{param} max {0}`, a failing `maxLength(5)` rule reads `maxLength max 5`, so `{param}` is the rule name and `{0}` is the first parameter |
| Validation.Step | src/solid/mod.ts:297-326 | one rule either lets its message-building exception escape, keeping the message so far; or records a failure and its message when a registered validator returns falsy or throws; or changes nothing |
| Validation.RunSpec | src/solid/mod.ts:297-327 | the loop completes iff no rule's message throws; the error flag is the OR over rules of "registered and failed or threw"; the message is the last failing rule's, or the prior one when none failed |
| Validation.RunRunning | src/solid/mod.ts:297-327 | the rule loop completes exactly when no rule's message building throws |
| Validation.RunFlags | src/solid/mod.ts:318-326 | a completed loop's flag is the OR of the rule failures, and with no failure the message is untouched |
| Validation.RunFailure | src/solid/mod.ts:318-326 | a completed loop with an error holds the message of the last failing rule |
| Validation.RunStopped | src/solid/mod.ts:309-312 | once a message-building exception escapes, later rules do not run |
| Validation.CheckField | src/solid/mod.ts:286-332 | an unarmed form gives false and no change; an unknown name throws in Solid and gives false in Vue (src/vue/mod.ts:211-215); no field's name, value or definition ever changes, and other fields are untouched |
| Validation.CheckFieldSpec | src/solid/mod.ts:297-331 | on an armed field with rules, the result is returned iff no message throws; then the field is marked evaluated, the flag and stored error are the OR of failures, the message is the last failure's or `''`; a throw leaves the flag and mark alone |
| Validation.NoRulesNoChange | src/solid/mod.ts:289-291 | a field without a rule list gives false and leaves the form, its verdict and mark included, unchanged |
| Validation.UnregisteredNeverFails | src/solid/mod.ts:307-318 | rules whose names have no registered validator never produce an error |
| Validation.CheckFieldIdempotent | src/solid/mod.ts:286-332 | running isErrorField twice on unchanged data gives the same form and result as once |
| Validation.RerunField | src/solid/mod.ts:286-332 | whenever the rule loop completes, a second evaluation reproduces the first |
| Validation.SettledField | src/solid/mod.ts:328-330 | a field already holding the verdict its rules produce is left unchanged by a new evaluation |
| Validation.CheckFieldDependsOnData | src/solid/mod.ts:316-318 | the outcome depends only on the field data and handlers, not on stored verdicts |
| Validation.SameRulesSameVerdict | src/solid/mod.ts:316-331 | two forms with the same data get the same outcome and the same new verdict for the field |
| Validation.CheckFieldCompletes | src/solid/mod.ts:328-331 | when the loop completes, the only change is the field's new verdict and its evaluated mark, and the result is the error flag |
| Validation.RunInitIrrelevant | src/solid/mod.ts:297-329 | the stored message before the run does not affect whether the loop completes, the flag, or the final message when there is an error |
| Grouping.GroupTargets | src/solid/mod.ts:337-340 | non-empty names are used as given; otherwise the targets are exactly the non-`$` fields |
| Grouping.Visible | src/solid/mod.ts:340 | keeps exactly the names that are not `$`-prefixed, and keeps every such name when there are no `$` names |
| Grouping.VisibleAppend | src/solid/mod.ts:340 | filtering a concatenation is the concatenation of the filtered parts, so the filter never reorders names |
| Grouping.VisiblePositions | src/solid/mod.ts:340 | each kept name comes from a position of the input, and these positions strictly increase |
| Grouping.DefaultTargetsInOrder | src/solid/mod.ts:337-340 | with no names given, the targets appear in the declaration order of the fields, which is the order the group loop visits and stops in |
| Grouping.Segment | src/solid/mod.ts:346 | a segment is the dot-free prefix up to the first `.` |
| Grouping.SplitKey | src/solid/mod.ts:346 | a dotted name splits into a dot-free parent, the prefix before the first `.`, and a dot-free child that starts right after it, so only the first two segments are used |
| Grouping.GroupStepSpec | src/solid/mod.ts:342-366 | one target never changes names, definitions, flag or handlers; a `$` name is skipped; a dotted name never throws and leaves the parent's verdicts alone; `p.c` fails iff `p` holds a nested form whose `isErrorField(c)` returns true, so a nested throw passes, and the nested form keeps what that evaluation wrote |
| Grouping.StepperShape | src/solid/mod.ts:342-366 | every step keeps the form's shape |
| Grouping.GroupIsValid | src/solid/mod.ts:335-369 | the form ends armed with its names, definitions and handlers unchanged |
| Grouping.RunKeepsShape | src/solid/mod.ts:341-367 | a group loop of shape-keeping steps keeps the shape |
| Grouping.GroupCompletes | src/solid/mod.ts:341-368 | with plain targets, the group returns iff every non-`$` target's evaluation on the armed form returns |
| Grouping.GroupValidIffNoFailure | src/solid/mod.ts:341-368 | with plain targets, the group is valid iff every non-`$` target, evaluated on the armed form, reports no error, so no target is skipped after a failure |
| Grouping.GroupSettlesTargets | src/solid/mod.ts:341-367 | after a plain group, every non-`$` target holds exactly the verdict its own isErrorField gives on the armed form |
| Grouping.PlainCombines | src/solid/mod.ts:341-368 | a plain group's result combines the targets' individual outcomes |
| Grouping.CombineSpec | src/solid/mod.ts:341-368 | the combination returns iff every outcome returned, and is true iff none reported an error |
| Grouping.RunCombines | src/solid/mod.ts:341-368 | a loop whose steps have fixed outcomes returns their combination |
| Grouping.RunSettles | src/solid/mod.ts:341-367 | a loop whose steps settle their own target and keep others settled settles every target |
| Grouping.PlainStep | src/solid/mod.ts:364-366 | a plain target's step has the outcome of isErrorField on the starting form and settles that target |
| Grouping.PlainStepKeeps | src/solid/mod.ts:364-366 | a plain step leaves the other targets' verdicts settled |
| Grouping.RunThrown | src/solid/mod.ts:364 | once a target throws, the group stops |
| Grouping.RunReturns | src/solid/mod.ts:341-368 | a loop whose steps all return, returns |
| Grouping.DottedTargetsNeverThrow | src/solid/mod.ts:344-363 | a group of only dotted or `$` names always returns, since nested exceptions are swallowed |
| Grouping.NestedUnarmedPasses | src/solid/mod.ts:344-363 | a dotted name whose parent is not an armed nested form is valid and changes nothing, since the group does not arm nested forms |
| Grouping.RunIdle | src/solid/mod.ts:341-368 | a loop whose steps all pass and change nothing returns true on the unchanged form |
| Grouping.UnarmedNestedGroup | src/solid/mod.ts:335-369 | a group of dotted names over unarmed nested forms is valid and only arms the parent |
| Ingestion.SetValue | src/solid/mod.ts:152-154 | writing a field changes only that field's value |
| Ingestion.OverrideFor | src/solid/mod.ts:204-208 | the override under the headLower-normalised key wins, then the one under the raw key; none iff neither exists |
| Ingestion.IngestShape | src/solid/mod.ts:166-211 | setData changes at most field values; a null or other falsy input changes nothing |
| Ingestion.EntriesShape | src/solid/mod.ts:171-210 | the property loop changes at most field values |
| Ingestion.WritesShape | src/solid/mod.ts:204-209 | an override callback's writes change at most field values |
| Ingestion.KeyShape | src/solid/mod.ts:172-209 | one property changes at most field values |
| Ingestion.PlainSlotStoresAsIs | src/solid/mod.ts:199-201 | a field that is neither a nested form nor an array of nested forms stores the value uncoerced |
| Ingestion.FalsyStoredAsIs | src/vue/mod.ts:132-146 | a falsy value is stored as-is, even for a nested-form field |
| Ingestion.SubFormSlot | src/solid/mod.ts:176-183 | a truthy value for a nested-form field builds a fresh instance with gen and fills it recursively; the base class's gen throws |
| Ingestion.GenItemsSpec | src/solid/mod.ts:192-198 | array-of-nested-forms building succeeds iff the array is empty or gen is implemented and no element's fill throws; then element `j` is a fresh instance filled from element `j` |
| Ingestion.ArrayOfSubFormsSlot | src/solid/mod.ts:184-198 | for an array of nested forms, the stored array has one freshly filled instance per element, in order |
| Ingestion.PlainObjectValues | src/solid/mod.ts:166-211 | filling a form of plain fields from an object never throws and leaves each field holding the last value given under its normalised name, or its old value |
| Ingestion.PlainEntries | src/solid/mod.ts:171-210 | after the first `n` properties, each plain field holds the last value written to it among them |
| Ingestion.PlainWrite | src/solid/mod.ts:171-201 | one more property updates exactly the field it names |
| Ingestion.StorePlain | src/solid/mod.ts:174-201 | storing into an existing plain field writes the value there and nothing else |
| Ingestion.UnknownKeysIgnored | src/solid/mod.ts:174 | properties with no override and no matching field change nothing |
| Ingestion.EntriesNext | src/solid/mod.ts:171-210 | the property loop stops at the first throw and otherwise processes the next property |
| Ingestion.NullishOverride | src/vue/mod.ts:150-153 | an override that is `null` or `undefined` throws in Solid (`setFunc(...)`) and is skipped in Vue (`setFunc?.(...)`) |
| Ingestion.ThrowStops | src/solid/mod.ts:171-210 | once a property throws, later properties are not processed |
| Forms.DeclaredFresh | src/solid/mod.ts:96-108 | every constructed field holds its initial value, the verdict `{false, ''}` and no evaluated mark |
| Forms.DeclaredOrigin | src/vue/mod.ts:83-89 | every constructed field comes from a model entry with a defined config |
| Forms.DeclaredCovers | src/vue/mod.ts:83-89 | every model entry with a defined config becomes a field |
| Forms.DeclaredUnique | src/solid/mod.ts:97-108 | distinct model names give distinct field names |
| Forms.VufForm.constructor | src/solid/mod.ts:92-121 | the form starts unarmed, with the given handlers and one fresh field per defined config, in model order, and no field name repeats |
| Forms.VufForm.AddEmit | src/solid/mod.ts:129-131 | the handler is registered under the name, replacing any existing one; fields and flag are unchanged |
| Forms.VufForm.RemoveEmit | src/solid/mod.ts:133-135 | the name is removed, and removing an absent name changes nothing |
| Forms.VufForm.Emit | solidjs/vufSolid.ts:91-95 | returns the registered handler's result, else `null`, exactly as the value-level `Values.Emit` says for the form's handler map |
| Forms.VufForm.GetFieldValue | src/solid/mod.ts:148-150 | returns the field's value; an unknown name throws in Solid and reads `undefined` in Vue |
| Forms.VufForm.SetFieldValue | src/solid/mod.ts:152-154 | writes only that field's value; an unknown name throws in Solid and changes nothing |
| Forms.VufForm.StartValid | src/solid/mod.ts:281-283 | arms the form and changes nothing else |
| Forms.RunRules | src/solid/mod.ts:296-327 | the rule loop returns the tally that the function `Validation.Run` gives for all the rules |
| Forms.VufForm.IsErrorField | src/solid/mod.ts:286-332 | leaves the field names unchanged (so they stay unique), runs the rules through `RunRules`, and returns the outcome that the function `Validation.CheckField` gives |
| Forms.VufForm.GroupIsValid | src/solid/mod.ts:335-369 | the loop leaves the form and returns the result that the function `Grouping.GroupIsValid` gives |
| Forms.VufForm.EvaluateTargets | src/solid/mod.ts:341-367 | the target loop matches the fold `Grouping.GroupRun` over the targets |
| Forms.VufForm.EvaluateNext | src/solid/mod.ts:342-366 | one iteration of the target loop takes the running result of the first `n` targets to that of the first `n + 1`: a throw ends it with no result, otherwise the result is and-ed with the target's verdict, keeping field names unique |
| Forms.VufForm.EvaluateTarget | src/solid/mod.ts:343-366 | one target, `$`, dotted or plain, takes the form from its old data to exactly the data and result that `Grouping.GroupStep` gives |
| Forms.VufForm.SetData | src/solid/mod.ts:166-211 | the property loop leaves the form that the function `Ingestion.Ingest` gives, keeps field names unique, and reports whether it threw |
| Forms.VufForm.IngestAll | src/solid/mod.ts:171-210 | the `for...in` loop over a truthy input's properties stops at the first that throws and leaves exactly the form and throw flag that `Ingestion.IngestEntries` gives for all of them, keeping field names unique |
| Forms.VufForm.IngestEntry | src/solid/mod.ts:171-210 | one iteration of the property loop takes the form from the first `n` properties' result to the first `n + 1`'s, keeping field names unique |
| Forms.VufForm.IngestProperty | src/solid/mod.ts:172-209 | one property's handling matches the function `Ingestion.IngestKey` |
| Forms.VufForm.ApplyWrites | src/solid/mod.ts:204-209 | an override callback's writes update the field table as specified, and flag and handlers are unchanged |
| Forms.VufForm.GetValueJson | src/solid/mod.ts:234-259 | returns the extraction that the function `Extraction.GetValueJson` gives for the current fields |
| Forms.VufForm.GetJsonHeadUpper | src/solid/mod.ts:219-226 | returns the headUpper-renamed extraction |
| Forms.RenameAll | src/solid/mod.ts:252-256 | the renaming loop produces the renamed object that `Extraction.Rename` gives |

## Left out

- Reactivity is not modelled: `createSignal`, `createEffect`, `validateWatch` and the Vue watch function. Values are plain stored values.
- Form ids, `randomKey` and `getKey` are not modelled, because they depend on the clock and randomness.
- `getValueJsonStr` is not modelled, because it only applies `JSON.stringify`.
- `getFieldObject` is not modelled, and console output is dropped.
- Numbers are exact rationals, not IEEE doubles.
- `Number()` accepts optionally signed decimal text with surrounding white space. Exponent, hexadecimal and `Infinity` syntax are not modelled.
- A number's text form is its decimal expansion, truncated at 20 fractional digits.
- Case mapping is ASCII only.
- `String.replace` takes the replacement literally. `$` patterns are not modelled.
- The field label `name`, extra config keys and the config copy into each field object are not modelled. A field keeps its definition.
- Names that are `Object.prototype` members (`toString`, `constructor`, ...) are assumed not to be used: not as field names, not as event names given to `emit` (where the source would find the inherited method, src/solid/mod.ts:137-141), not as names given to `isErrorField` or `groupIsValid` (where Solid would read `.validate` off the inherited function and return false, src/solid/mod.ts:288-291), and not as names listed in `getValueJson`'s `keys` option (where Solid's `this._fields[key]` test passes for the inherited function, src/solid/mod.ts:248-250, and reading its `.value[0]` then throws, src/solid/mod.ts:405, while Vue skips the name, src/vue/mod.ts:285; the model skips it in both). Numeric-looking field names, which JavaScript reorders, are assumed absent too.
- `setData` on a string (whose characters `for...in` would enumerate) and on a nested form object is treated as an object with no properties.
- A rule tuple whose head is not a string is not modelled.
- A field value that is a function, which `formatValue` calls, is not modelled.
- Nested forms are values, so two fields cannot share one nested instance. When a dotted name evaluates the nested form, the result is written back into the parent's field.
- An override callback is modelled by the field writes it makes to the form, given as a function of the value. Writes to names that are not fields are ignored, and any other effect is out of scope.
- The validator handle exposes `emit` and the form's data, from which `getJson` is computed. A custom validator that calls `isErrorField` back on the form is not modelled.
- `src/solid/formFactory.ts` is not part of this model.
- `Forms.VufForm.constructor`: the Solid constructor requires every config to be defined, because a missing one makes it throw a TypeError while reading `value`.
- `Forms.VufForm.IsErrorField` keeps the running message in a local and stores it when the loop ends or throws, instead of at every failure. Validators see only field data, not verdicts, so this is indistinguishable from the source.
- `getJson` returns `getValueJson`'s result unchanged (src/solid/mod.ts:216-218, src/vue/mod.ts:161-163), so it has no member of its own.
- `Grouping.GroupValidIffNoFailure`, `Grouping.GroupCompletes` and `Grouping.GroupSettlesTargets` are stated for groups without dotted names. For a single dotted name, `Grouping.GroupStepSpec` states the outcome (the nested `isErrorField` result, with a nested throw passing) and the state it leaves. `Grouping.DottedTargetsNeverThrow`, `Grouping.NestedUnarmedPasses` and `Grouping.UnarmedNestedGroup` cover groups of dotted names. No lemma states the whole-group iff for a group that mixes dotted and plain names.
- `Extraction.ExtractData`: the Vue extraction can throw (`Number()` of a symbol), so only its success in Solid is stated on the function. Its members are stated in `Extraction.ExtractDataMembers` and their values in `Extraction.ExtractDataValues`.
- Validators.EventKey: symbol-keyed handlers are not modelled. Handlers are held in a string-keyed dictionary, so an emit under a symbol event name finds no handler, whereas the source would find one registered under that symbol through the `emits` option (src/solid/mod.ts:119).
- Registry: the placeholder operations in `src/core/mod.ts` do nothing. The registry class follows what the core's unit tests assert, so `registerValidator` and `overrideValidator` both overwrite silently.
- The Vue `formatValue` calls `Number()` outside a `try` (src/vue/mod.ts:272-278), so extracting a Number-typed field that holds a symbol throws. The model keeps that throw.
