# k18n code generation, modelled in Dafny

k18n is a Gradle plugin that turns JSON locale files into Kotlin code. Its
`k18nGenerate` task works in four steps.

1. It reads `config.json`. The run is skipped when no language is configured or
   when the default language is not one of them.
2. It flattens each locale document into a map from dotted key to message text.
   - Every object key loses its dots, is trimmed and is joined to its parent's key with a dot.
   - Primitive leaves are copied verbatim.
3. It builds one translation entry per key of the default locale.
   - It finds the placeholders `{name}`, `{name:Type}` and `{name:}` of the default text.
   - It resolves each placeholder's type through the configuration: custom types first, then the native Kotlin types.
   - It rewrites each placeholder into a Kotlin string-template expression `${…}`.
   - It checks that every other language that defines the key uses the same placeholders with the same Kotlin classes.
   - It files the entry under the key's package (the part before the last dot) and object name (the rest).
4. The generator visits the packages in sorted order.
   - Each package becomes a file named `data`.
   - A package whose name contains the "nested" suffix instead becomes an object `K18n_<last segment without suffix>` inside its parent package's file.
   - A message without arguments becomes an `object`; one with arguments becomes a `data class`. Each argument is a constructor parameter and a property.
   - Either way, the message's `translateTo(language)` returns the language's own text, and the default text for every configured language without one.

The Dafny model follows the code, module by module.

- `Outcomes` holds `Result`/`Option` and the `Error` datatype. `Error` stands for the source's `error(...)` aborts.
- `KotlinText` holds the Kotlin string functions the code relies on:
  - `trim`;
  - `replace`;
  - `substringBeforeLast` / `substringAfterLast`;
  - `removeSuffix`;
  - string ordering and sorting.
- `OrderedMaps` models Kotlin's insertion-ordered `LinkedHashMap` as an ordered key list plus a map. Its operations are `put`, `putAll` and `associate`.
- `Configs` holds `Config`, `CustomArgumentType`, `ArgumentData` and `Config.build`.
- `Flattening` is `parseToFlattenedMap`, a loop with a recursive call.
- `Placeholders` holds:
  - the placeholder pattern, as a hand-written matcher;
  - `parseArgumentsFromLine`;
  - `replaceArgumentsInLine`.
- `GenerateTask` is the body of `generate()`: the checks, the locale loop, the merge loop and the run's outcome.
- `KtGeneration` covers the generator's decisions:
  - files, groups and type kinds;
  - constructor parameters;
  - the `when` branches of `translateTo`.

  The KotlinPoet declarations are described as values.

The loops of the source are methods proved against specification functions.
- `Flattening.FlattenObject`
- `Placeholders.ReplaceArgumentsInLine`
- `GenerateTask.Generate`, together with `LoadLocales`, `LoadLocale`, `MergeEntries`, `MergeKey`, `BuildEntry`, `TranslateAll` and `TranslateValue`
- `KtGeneration.Generate`, together with `VisitPackage`, `WriteEntries`, `WriteEntry` and `AddConstructorParams`

The properties of what those loops compute are lemmas about the specification functions.

Some behaviour of the code is captured as written.
- **Untyped placeholders.** The pattern `\{(\w+):?(\w+)?}` also matches `{name:}`. Its empty type means `String`, exactly like `{name}`.
- **Repeated placeholders.** A line that uses the same placeholder twice fails. The key-by-text map then has fewer entries than there are matches (`Placeholders.ParseArgumentsSpec`).
- **Top-level keys.** A key without a dot lands in the empty package. With `withBasePackage` set, its file's package is `de.tectoast.k18n.generated.`, which ends in a dot (`KtGeneration.TopLevelFilePackage`).
- **Nested packages.** A nested package's group is appended to its parent's file. A later non-nested package of the same name would replace that file, but the sorted visiting order rules this out: a parent sorts before its nested children (`KtGeneration.NoOverwrite`).

## Model

| member | source | states |
|---|---|---|
| KotlinText.TrimFacts | src/main/kotlin/de/tectoast/k18n/K18nGenerateTask.kt:117 | `trim()` returns a slice of its input. Everything cut off on either side is whitespace, and the result neither starts nor ends with whitespace. |
| KotlinText.TrimStartFacts | src/main/kotlin/de/tectoast/k18n/K18nGenerateTask.kt:117 | Trimming the start removes exactly the leading run of whitespace. |
| KotlinText.TrimEndFacts | src/main/kotlin/de/tectoast/k18n/K18nGenerateTask.kt:117 | Trimming the end removes exactly the trailing run of whitespace. |
| KotlinText.RemoveCharFacts | src/main/kotlin/de/tectoast/k18n/K18nGenerateTask.kt:117 | `replace(".", "")` leaves no dot. It leaves a dot-free string unchanged. |
| KotlinText.ReplaceAllAbsent | src/main/kotlin/de/tectoast/k18n/K18nGenerateTask.kt:96 | `replace` leaves a string without an occurrence of the pattern unchanged. |
| KotlinText.ReplaceAllSelf | src/main/kotlin/de/tectoast/k18n/K18nGenerateTask.kt:96 | Replacing a pattern by itself is the identity. |
| KotlinText.ReplaceAtFront | src/main/kotlin/de/tectoast/k18n/Config.kt:29 | An occurrence at the front is replaced once, and the rest is kept when it cannot start another occurrence. |
| KotlinText.ReplaceAfterPlain | src/main/kotlin/de/tectoast/k18n/Config.kt:29 | Text that holds no first character of the pattern passes through `replace` unchanged, in front of the replaced remainder. |
| KotlinText.ReplaceOnce | src/main/kotlin/de/tectoast/k18n/Config.kt:29 | One occurrence amid text that cannot start another is replaced in place. |
| KotlinText.AbsentCharNotContained | src/main/kotlin/de/tectoast/k18n/K18nGenerateTask.kt:96 | A string lacking one of the pattern's characters holds no occurrence of it. |
| KotlinText.ContainsSubSuffix | src/main/kotlin/de/tectoast/k18n/KtGeneration.kt:16 | An occurrence in a suffix is an occurrence in the whole string (the `in` test). |
| KotlinText.LastIndexOfSpec | src/main/kotlin/de/tectoast/k18n/K18nGenerateTask.kt:86-87 | The index found holds the character, and no later position does. |
| KotlinText.SplitAtLast | src/main/kotlin/de/tectoast/k18n/K18nGenerateTask.kt:86-87 | The part after the last dot holds no dot. With a dot, before + "." + after is the input. Without one, before is the given default and after is the whole string. |
| KotlinText.RemoveSuffix | src/main/kotlin/de/tectoast/k18n/KtGeneration.kt:21 | `removeSuffix` returns the input, or the input less a trailing copy of the suffix. |
| KotlinText.StrLessIrreflexive | src/main/kotlin/de/tectoast/k18n/KtGeneration.kt:15 | The key order of `sortedBy` is irreflexive. |
| KotlinText.StrLessTransitive | src/main/kotlin/de/tectoast/k18n/KtGeneration.kt:15 | The key order is transitive. |
| KotlinText.StrLessTotal | src/main/kotlin/de/tectoast/k18n/KtGeneration.kt:15 | Any two distinct strings are ordered one way. |
| KotlinText.StrLessAsymmetric | src/main/kotlin/de/tectoast/k18n/KtGeneration.kt:15 | The key order is asymmetric. |
| KotlinText.ProperPrefixLess | src/main/kotlin/de/tectoast/k18n/KtGeneration.kt:15 | A proper prefix sorts before the longer string, so a parent package precedes its children. |
| KotlinText.Insert | src/main/kotlin/de/tectoast/k18n/KtGeneration.kt:15 | Inserting into a sorted list keeps it sorted and adds exactly the element. |
| KotlinText.SortStrings | src/main/kotlin/de/tectoast/k18n/KtGeneration.kt:15 | `sortedBy { it.key }` returns a sorted permutation of the package names. |
| OrderedMaps.Empty | src/main/kotlin/de/tectoast/k18n/K18nGenerateTask.kt:115 | `mutableMapOf()` is a well-formed map with no keys. |
| OrderedMaps.Put | src/main/kotlin/de/tectoast/k18n/K18nGenerateTask.kt:121 | `put` sets the key's value. A new key goes last, and an existing key keeps its position. |
| OrderedMaps.Items | src/main/kotlin/de/tectoast/k18n/K18nGenerateTask.kt:95 | Iterating a map yields its entries in insertion order. |
| OrderedMaps.PutValid | src/main/kotlin/de/tectoast/k18n/K18nGenerateTask.kt:121 | `put` keeps the key list duplicate-free and in step with the map. |
| OrderedMaps.PutTwice | src/main/kotlin/de/tectoast/k18n/KtGeneration.kt:18-21 | Two writes under one key equal the last write. |
| OrderedMaps.PutItemsValid | src/main/kotlin/de/tectoast/k18n/K18nGenerateTask.kt:103-107 | A sequence of writes keeps the map well formed. |
| OrderedMaps.PutItemsKeys | src/main/kotlin/de/tectoast/k18n/K18nGenerateTask.kt:120 | After a sequence of writes, the keys are the old ones followed by the first occurrences of the new ones. |
| OrderedMaps.PutItemsValues | src/main/kotlin/de/tectoast/k18n/K18nGenerateTask.kt:120 | The values after a sequence of writes are the old ones overridden by the writes, the later winning. |
| OrderedMaps.PutItemsShape | src/main/kotlin/de/tectoast/k18n/K18nGenerateTask.kt:120 | The keys and the values after a sequence of writes, together. |
| OrderedMaps.DedupFacts | src/main/kotlin/de/tectoast/k18n/K18nGenerateTask.kt:108 | Keeping first occurrences yields distinct keys, exactly the unseen ones. Nothing is dropped exactly when the keys are already distinct and unseen. |
| OrderedMaps.DedupTwice | src/main/kotlin/de/tectoast/k18n/K18nGenerateTask.kt:120 | Deduplicating twice equals deduplicating once against both seen-sets. |
| OrderedMaps.OverrideSplit | src/main/kotlin/de/tectoast/k18n/K18nGenerateTask.kt:120 | Writing into a map equals merging the writes, taken alone, over it. |
| OrderedMaps.OverrideAgreeing | src/main/kotlin/de/tectoast/k18n/K18nGenerateTask.kt:120 | Writes that agree with a reference map add exactly that map's values for the written keys. |
| OrderedMaps.OverrideItems | src/main/kotlin/de/tectoast/k18n/K18nGenerateTask.kt:120 | Replaying a map's own entries rebuilds its values. |
| OrderedMaps.OverrideKeys | src/main/kotlin/de/tectoast/k18n/K18nGenerateTask.kt:120 | After writes, a key is present exactly when it was before or was written. |
| OrderedMaps.OverrideLast | src/main/kotlin/de/tectoast/k18n/K18nGenerateTask.kt:121 | The last write to a key decides its value. |
| OrderedMaps.OverrideKeep | src/main/kotlin/de/tectoast/k18n/K18nGenerateTask.kt:120 | A key no write touches keeps its value. |
| OrderedMaps.FreshShape | src/main/kotlin/de/tectoast/k18n/K18nGenerateTask.kt:103-107 | `associate` into an empty map keeps the first occurrence of each key, with the last value written. |
| OrderedMaps.PutAllOfPutItems | src/main/kotlin/de/tectoast/k18n/K18nGenerateTask.kt:120 | `putAll` of a map built from writes equals performing those writes directly. |
| OrderedMaps.PutItemsAppend | src/main/kotlin/de/tectoast/k18n/K18nGenerateTask.kt:116-122 | Writing two runs of entries equals writing the first run and then the second. |
| OrderedMaps.PutItemsFresh | src/main/kotlin/de/tectoast/k18n/K18nGenerateTask.kt:103-108 | `associate` loses no entry exactly when the keys are distinct. It then keeps every key in order with its own value. |
| Configs.DefaultConfig | src/main/kotlin/de/tectoast/k18n/Config.kt:7-12 | The defaults: languages de and en, default de, base package on, suffix `_nested`, and `Mention` as a `Long` rendered `<@{var}>`. |
| Configs.DefaultConfigRunnable | src/main/kotlin/de/tectoast/k18n/K18nGenerateTask.kt:45-52 | The default configuration passes both checks that would skip the run. |
| Configs.BuildSpec | src/main/kotlin/de/tectoast/k18n/Config.kt:25-41 | `build` succeeds exactly for a custom or native identifier, with custom types taking precedence. A custom type gives its class and its template, quoted, with `{var}` replaced by `$name`. A native type gives itself and the bare variable. Anything else fails with the identifier and the variable. |
| Configs.MentionExample | src/main/kotlin/de/tectoast/k18n/Config.kt:12 | With the defaults, `{userId:Mention}` resolves to class `Long` and the expression `"<@$userId>"`. |
| Configs.TemplateWithoutMarker | src/main/kotlin/de/tectoast/k18n/Config.kt:29 | A custom template without `{var}` is rendered verbatim in quotes. |
| Flattening.FlattenObject | src/main/kotlin/de/tectoast/k18n/K18nGenerateTask.kt:114-125 | The loop computes the specification of the flattening, including its failure. |
| Flattening.FlattenMember | src/main/kotlin/de/tectoast/k18n/K18nGenerateTask.kt:117-122 | One member advances the specification by one step: a nested object by `putAll` of its own flattening, a primitive by `put`, an array by failing. |
| Flattening.FlattenFromWritesLeaves | src/main/kotlin/de/tectoast/k18n/K18nGenerateTask.kt:114-125 | Flattening fails exactly when a non-primitive leaf is reachable. Otherwise it equals writing every leaf in document order under its joined key. |
| Flattening.Flatten | src/main/kotlin/de/tectoast/k18n/K18nGenerateTask.kt:54 | A locale document whose root is not an object is malformed; a flattening is a well-formed map. |
| Flattening.FlattenByLeaves | src/main/kotlin/de/tectoast/k18n/K18nGenerateTask.kt:114-125 | The flattened keys are exactly the leaves' joined paths, and a key's text comes from its last leaf. |
| Flattening.KeyedOverride | src/main/kotlin/de/tectoast/k18n/K18nGenerateTask.kt:118-121 | Writing keyed leaves yields exactly their keys, each with its last leaf's text. |
| Flattening.LeafPaths | src/main/kotlin/de/tectoast/k18n/K18nGenerateTask.kt:117 | Every leaf path is non-empty and none of its segments holds a dot. |
| Flattening.SegmentHasNoDot | src/main/kotlin/de/tectoast/k18n/K18nGenerateTask.kt:117 | A cleaned member name holds no dot. |
| Flattening.JoinKeyShape | src/main/kotlin/de/tectoast/k18n/K18nGenerateTask.kt:118 | Under a non-empty parent, a key is the parent followed by `.segment` for each segment. |
| Flattening.JoinKeyNoLeadingDot | src/main/kotlin/de/tectoast/k18n/K18nGenerateTask.kt:118 | Joining dot-free segments to a parent that does not start with a dot gives a key that does not start with one. |
| Flattening.FlattenNoLeadingDot | src/main/kotlin/de/tectoast/k18n/K18nGenerateTask.kt:114-125 | No flattened key starts with a dot. |
| Flattening.SegmentIgnoresDots | src/main/kotlin/de/tectoast/k18n/K18nGenerateTask.kt:117 | Removing dots from a name first does not change its segment. |
| Flattening.StripDots | src/main/kotlin/de/tectoast/k18n/K18nGenerateTask.kt:117 | Stripping dots from member names keeps each element's kind and every primitive. |
| Flattening.StripDotsFlattenFrom | src/main/kotlin/de/tectoast/k18n/K18nGenerateTask.kt:116-122 | The loop gives the same result on a document whose member names lost their dots. |
| Flattening.StripDotsFlatten | src/main/kotlin/de/tectoast/k18n/K18nGenerateTask.kt:114-125 | Dots in member names never influence the flattened map. |
| Placeholders.Text | src/main/kotlin/de/tectoast/k18n/K18nGenerateTask.kt:128 | A match's text starts with `{` and has at least two characters. |
| Placeholders.MatchPrefixSound | src/main/kotlin/de/tectoast/k18n/K18nGenerateTask.kt:128 | A match found at the front is a placeholder the pattern admits, and its text is a prefix of the input. |
| Placeholders.MatchNameSound | src/main/kotlin/de/tectoast/k18n/K18nGenerateTask.kt:128 | Reading group 1 yields only admissible placeholders whose text is a prefix. |
| Placeholders.MatchTypeSound | src/main/kotlin/de/tectoast/k18n/K18nGenerateTask.kt:128 | Reading group 2 yields only admissible placeholders whose text is a prefix. |
| Placeholders.MatchText | src/main/kotlin/de/tectoast/k18n/K18nGenerateTask.kt:128 | Every admissible placeholder's text is matched as exactly that placeholder, whatever follows it. |
| Placeholders.ScanValid | src/main/kotlin/de/tectoast/k18n/K18nGenerateTask.kt:102 | Every match `findAll` reports is admissible and occurs in the line. |
| Placeholders.ScanToken | src/main/kotlin/de/tectoast/k18n/K18nGenerateTask.kt:102 | After a placeholder, the search resumes at the rest of the line. |
| Placeholders.ScanPlain | src/main/kotlin/de/tectoast/k18n/K18nGenerateTask.kt:102 | Text without `{` contributes no match. |
| Placeholders.NoBraceNoTokens | src/main/kotlin/de/tectoast/k18n/K18nGenerateTask.kt:102 | A line without `{` has no placeholders. |
| Placeholders.ScanRender | src/main/kotlin/de/tectoast/k18n/K18nGenerateTask.kt:102 | A line assembled from brace-free text and placeholders yields exactly those placeholders, in order. |
| Placeholders.BuildsOk | src/main/kotlin/de/tectoast/k18n/K18nGenerateTask.kt:103-107 | Resolution succeeds exactly when every placeholder's type resolves. Each text is then paired with its resolution, in order. |
| Placeholders.BuildsErr | src/main/kotlin/de/tectoast/k18n/K18nGenerateTask.kt:106 | A failed resolution reports the first placeholder whose type is unknown. |
| Placeholders.ParseArguments | src/main/kotlin/de/tectoast/k18n/K18nGenerateTask.kt:101-112 | A parsed argument map is well formed. |
| Placeholders.ParseArgumentsSpec | src/main/kotlin/de/tectoast/k18n/K18nGenerateTask.kt:101-112 | Parsing succeeds exactly when every type resolves and no placeholder text repeats. The map then lists the texts in order with their resolutions. An unknown type is reported first; otherwise a repetition reports the distinct and total counts. |
| Placeholders.Signature | src/main/kotlin/de/tectoast/k18n/K18nGenerateTask.kt:77 | The compared map has the same placeholders, each with its Kotlin class. |
| Placeholders.ReplaceArgumentsInLine | src/main/kotlin/de/tectoast/k18n/K18nGenerateTask.kt:93-99 | The loop replaces every placeholder, in map order, by its `${…}` expression. |
| Placeholders.SubstitutePlain | src/main/kotlin/de/tectoast/k18n/K18nGenerateTask.kt:93-99 | A line without `{` is unchanged by substitution. |
| Placeholders.SubstituteSingle | src/main/kotlin/de/tectoast/k18n/K18nGenerateTask.kt:93-112 | A line with one resolvable placeholder parses. Substituting it yields the line with that placeholder replaced by its expression. |
| GenerateTask.PrimaryMap | src/main/kotlin/de/tectoast/k18n/K18nGenerateTask.kt:53-54 | The default locale's flattening is a well-formed map. |
| GenerateTask.LoadSecondary | src/main/kotlin/de/tectoast/k18n/K18nGenerateTask.kt:58-65 | A loaded locale uses only keys of the default locale. |
| GenerateTask.LoadSecondarySpec | src/main/kotlin/de/tectoast/k18n/K18nGenerateTask.kt:58-66 | A language without a file fails with `MissingLocaleFile`. A malformed document passes its flattening error on. Otherwise loading fails with `UnknownKey` exactly when the locale uses a key the default lacks, and succeeds with the locale's flattening. |
| GenerateTask.SecondaryFrom | src/main/kotlin/de/tectoast/k18n/K18nGenerateTask.kt:55-68 | The map of other locales is well formed. |
| GenerateTask.Run | src/main/kotlin/de/tectoast/k18n/K18nGenerateTask.kt:45-52 | A run is skipped exactly when there is no language or the default is not among them. |
| GenerateTask.LoadLocale | src/main/kotlin/de/tectoast/k18n/K18nGenerateTask.kt:58-66 | Loading one language computes its specification: a missing file, a malformed document or an unknown key fails. |
| GenerateTask.TranslateValue | src/main/kotlin/de/tectoast/k18n/K18nGenerateTask.kt:75-80 | One other language's text is parsed, checked and substituted as specified. |
| GenerateTask.TranslateAll | src/main/kotlin/de/tectoast/k18n/K18nGenerateTask.kt:74-81 | The `forEach` over the other locales computes the translations specification. |
| GenerateTask.BuildEntry | src/main/kotlin/de/tectoast/k18n/K18nGenerateTask.kt:71-85 | One key's entry is built as specified. |
| GenerateTask.MergeKey | src/main/kotlin/de/tectoast/k18n/K18nGenerateTask.kt:70-88 | One step of the merge loop fails with the entry's error, or files the entry under the key's package and object. |
| GenerateTask.LoadLocales | src/main/kotlin/de/tectoast/k18n/K18nGenerateTask.kt:55-68 | The `buildMap` loop over the configured languages computes the other locales as specified, stopping at the first failure. |
| GenerateTask.MergeEntries | src/main/kotlin/de/tectoast/k18n/K18nGenerateTask.kt:69-89 | The loop over the default locale's keys, in insertion order, computes the specified merge. |
| GenerateTask.Generate | src/main/kotlin/de/tectoast/k18n/K18nGenerateTask.kt:22-91 | The task's body produces exactly the specified outcome. |
| GenerateTask.SecondaryFromOk | src/main/kotlin/de/tectoast/k18n/K18nGenerateTask.kt:55-68 | Loading the other locales succeeds exactly when every non-default language loads. |
| GenerateTask.SecondaryFromErr | src/main/kotlin/de/tectoast/k18n/K18nGenerateTask.kt:55-68 | A failure is the error of the first non-default language, in list order, that fails to load. |
| GenerateTask.SecondaryFromKeys | src/main/kotlin/de/tectoast/k18n/K18nGenerateTask.kt:55-68 | The loaded languages are exactly the configured non-default ones. |
| GenerateTask.SecondaryFromLoaded | src/main/kotlin/de/tectoast/k18n/K18nGenerateTask.kt:55-68 | Each loaded language holds its own file's flattening. |
| GenerateTask.SecondaryFromValues | src/main/kotlin/de/tectoast/k18n/K18nGenerateTask.kt:55-68 | Both facts together: which languages are loaded, and what each holds. |
| GenerateTask.LanguagesWithSpec | src/main/kotlin/de/tectoast/k18n/K18nGenerateTask.kt:75 | The languages that translate a key are exactly those whose locale defines it. |
| GenerateTask.TranslationsOk | src/main/kotlin/de/tectoast/k18n/K18nGenerateTask.kt:74-81 | Translating succeeds exactly when every locale that defines the key translates it. |
| GenerateTask.TranslationsErr | src/main/kotlin/de/tectoast/k18n/K18nGenerateTask.kt:74-81 | A failure is the first failing locale's error. |
| GenerateTask.TranslationsKeys | src/main/kotlin/de/tectoast/k18n/K18nGenerateTask.kt:72-81 | The translations list the languages already present, then those defining the key, in locale order. |
| GenerateTask.TranslationsValues | src/main/kotlin/de/tectoast/k18n/K18nGenerateTask.kt:72-81 | Existing translations are kept, and each defining locale's text is stored under its language. |
| GenerateTask.TranslateSpec | src/main/kotlin/de/tectoast/k18n/K18nGenerateTask.kt:76-80 | Another language's text is accepted exactly when it parses with the default's placeholder-to-class map. It is then substituted. A parse error is passed on unchanged; otherwise the mismatch names the key and the language. |
| GenerateTask.EntryForOutcome | src/main/kotlin/de/tectoast/k18n/K18nGenerateTask.kt:71-85 | An entry is built exactly when the default text parses and every locale defining the key translates it. |
| GenerateTask.EntryForShape | src/main/kotlin/de/tectoast/k18n/K18nGenerateTask.kt:71-85 | The entry's arguments map each variable to its class. Its translations start with the default's substituted text and add each defining language's text. |
| GenerateTask.EntryForWellFormed | src/main/kotlin/de/tectoast/k18n/K18nGenerateTask.kt:72-85 | An entry's first translation is the default's, and every translated language is configured. |
| GenerateTask.SlotKeyOf | src/main/kotlin/de/tectoast/k18n/K18nGenerateTask.kt:86-87 | Package and object name, rejoined with a dot, give back a key that does not start with a dot. |
| GenerateTask.SlotsDiffer | src/main/kotlin/de/tectoast/k18n/K18nGenerateTask.kt:86-88 | Different keys land in different places. |
| GenerateTask.PlaceAtSpec | src/main/kotlin/de/tectoast/k18n/K18nGenerateTask.kt:88 | `getOrPut(...)[obj] = entry` fills that place and leaves every other place untouched. |
| GenerateTask.PlaceAtValid | src/main/kotlin/de/tectoast/k18n/K18nGenerateTask.kt:88 | Filing keeps the nested maps well formed. |
| GenerateTask.PlaceSpec | src/main/kotlin/de/tectoast/k18n/K18nGenerateTask.kt:86-88 | Filing an entry by key puts it at the key's package and object, and changes no other place. |
| GenerateTask.MergeFromOk | src/main/kotlin/de/tectoast/k18n/K18nGenerateTask.kt:70-89 | The merge loop succeeds exactly when every key's entry builds. |
| GenerateTask.MergeFromErr | src/main/kotlin/de/tectoast/k18n/K18nGenerateTask.kt:70-89 | A failed merge reports the first key whose entry fails. |
| GenerateTask.MergeFromHolds | src/main/kotlin/de/tectoast/k18n/K18nGenerateTask.kt:70-89 | After the merge, each key holds its own entry, and entries of other keys are kept. |
| GenerateTask.MergeFromSlots | src/main/kotlin/de/tectoast/k18n/K18nGenerateTask.kt:70-89 | Every filled place was filled before or comes from a merged key. |
| GenerateTask.SecondariesOk | src/main/kotlin/de/tectoast/k18n/K18nGenerateTask.kt:55-68 | All other locales load exactly when each configured non-default language loads. |
| GenerateTask.MergeAllOk | src/main/kotlin/de/tectoast/k18n/K18nGenerateTask.kt:69-89 | Merging the whole default locale succeeds exactly when every key's entry builds. |
| GenerateTask.MergeAllHolds | src/main/kotlin/de/tectoast/k18n/K18nGenerateTask.kt:69-89 | After the merge, every default key holds its entry. |
| GenerateTask.MergeAllSlots | src/main/kotlin/de/tectoast/k18n/K18nGenerateTask.kt:69-89 | Every place in the merged map belongs to a default key. |
| GenerateTask.RunOutcomeSpec | src/main/kotlin/de/tectoast/k18n/K18nGenerateTask.kt:44-89 | A run reaches code generation exactly when it is runnable, every locale loads and every default key's entry builds. |
| GenerateTask.RunGenerated | src/main/kotlin/de/tectoast/k18n/K18nGenerateTask.kt:44-90 | A successful run's map holds exactly the default keys, each with its entry. The other locales are exactly the non-default languages, each with its file. |
| GenerateTask.RunEntries | src/main/kotlin/de/tectoast/k18n/K18nGenerateTask.kt:69-90 | Every entry handed to the generator has the default first and only configured languages. |
| KtGeneration.IdentifierToClassNameSpec | src/main/kotlin/de/tectoast/k18n/KtGeneration.kt:105-109 | A qualified identifier names itself, and a bare one names a class in `kotlin`. The simple name never holds a dot. |
| KtGeneration.FilePackageInjective | src/main/kotlin/de/tectoast/k18n/KtGeneration.kt:34-40 | Different packages are generated into different file packages. |
| KtGeneration.TopLevelFilePackage | src/main/kotlin/de/tectoast/k18n/KtGeneration.kt:38 | With the base package on, the empty package's file package is `de.tectoast.k18n.generated.`, ending in a dot. |
| KtGeneration.MinusMembers | src/main/kotlin/de/tectoast/k18n/KtGeneration.kt:60 | `languages - keys` holds exactly the configured languages without a translation. |
| KtGeneration.DispatchUnique | src/main/kotlin/de/tectoast/k18n/KtGeneration.kt:56-65 | A language listed by a single branch selects that branch. |
| KtGeneration.DispatchNone | src/main/kotlin/de/tectoast/k18n/KtGeneration.kt:56-65 | A language no branch lists selects nothing. |
| KtGeneration.ArmLanguages | src/main/kotlin/de/tectoast/k18n/KtGeneration.kt:58-63 | A translation's branch returns its text. It lists its own language, plus, for the default, every untranslated configured language. |
| KtGeneration.ArmsPartition | src/main/kotlin/de/tectoast/k18n/KtGeneration.kt:56-65 | The branches list only configured languages, each in exactly one branch. |
| KtGeneration.ArmsDispatch | src/main/kotlin/de/tectoast/k18n/KtGeneration.kt:56-65 | `translateTo` returns nothing for an unconfigured language, a language's own text, or else the default's text. |
| KtGeneration.ParamsSpec | src/main/kotlin/de/tectoast/k18n/KtGeneration.kt:88-103 | One parameter per argument, with distinct names, each typed by its identifier's class. There are none exactly when there are no arguments. |
| KtGeneration.AddConstructorParams | src/main/kotlin/de/tectoast/k18n/KtGeneration.kt:88-103 | Both loops produce the parameter list, in argument order: constructor parameters and properties alike. |
| KtGeneration.MessageTypeSpec | src/main/kotlin/de/tectoast/k18n/KtGeneration.kt:48-84 | A message is an object exactly without arguments, and otherwise a data class with its parameters as properties. It is named with or without `K18n_`, and its `translateTo` falls back to the default. |
| KtGeneration.WriteEntry | src/main/kotlin/de/tectoast/k18n/KtGeneration.kt:48-84 | The loop body builds the specified type for one entry. |
| KtGeneration.WriteEntries | src/main/kotlin/de/tectoast/k18n/KtGeneration.kt:42-86 | `writeEntries` adds one type per entry, in entry order. |
| KtGeneration.EntryTypesDescribe | src/main/kotlin/de/tectoast/k18n/KtGeneration.kt:42-86 | Every entry of a package has a type describing it among the written types. |
| KtGeneration.PackageOrder | src/main/kotlin/de/tectoast/k18n/KtGeneration.kt:15 | The visiting order lists packages of the merged map. |
| KtGeneration.PackageOrderDistinct | src/main/kotlin/de/tectoast/k18n/KtGeneration.kt:15 | The visiting order is sorted and duplicate-free, and it lists every package. |
| KtGeneration.VisitPackage | src/main/kotlin/de/tectoast/k18n/KtGeneration.kt:16-28 | One iteration updates the builders as specified: it appends a group to the parent's builder, or installs a new file for the package. |
| KtGeneration.StepTargets | src/main/kotlin/de/tectoast/k18n/KtGeneration.kt:16-28 | An iteration adds or changes only the builder it writes to. |
| KtGeneration.StepNested | src/main/kotlin/de/tectoast/k18n/KtGeneration.kt:16-23 | A nested package keeps the parent file's types and appends its group there. |
| KtGeneration.StepOwn | src/main/kotlin/de/tectoast/k18n/KtGeneration.kt:24-28 | Any other package gets a file holding exactly its entries' types. |
| KtGeneration.NoOverwrite | src/main/kotlin/de/tectoast/k18n/KtGeneration.kt:15-28 | In sorted order, no earlier package writes to the builder that a later non-nested package replaces. |
| KtGeneration.Generate | src/main/kotlin/de/tectoast/k18n/KtGeneration.kt:12-32 | The loop builds exactly the specified set of files. |
| KtGeneration.GenerateFromVisits | src/main/kotlin/de/tectoast/k18n/KtGeneration.kt:15-29 | The loop keeps its invariant: the builders are the targets of the visited packages, own entries sit in own files and groups sit in parent files. |
| KtGeneration.FilesNames | src/main/kotlin/de/tectoast/k18n/KtGeneration.kt:12-40 | The generated files are exactly the targets of the packages. Each is named `data`, in its package's file package. |
| KtGeneration.FilesHoldEntries | src/main/kotlin/de/tectoast/k18n/KtGeneration.kt:12-32 | A package's types are in its own file, or in its group in the parent's file when nested. |
| KtGeneration.RunFeedsGenerator | src/main/kotlin/de/tectoast/k18n/K18nGenerateTask.kt:69-90 | Every entry of a successful run has a default translation and only configured languages, as the generator needs. |
| KtGeneration.SlotIsGenerated | src/main/kotlin/de/tectoast/k18n/KtGeneration.kt:12-32 | Every filed entry is described by a generated type: at file level with the prefix, or inside its group without it. |
| KtGeneration.KeyIsGenerated | src/main/kotlin/de/tectoast/k18n/K18nGenerateTask.kt:69-90 | Every key of the default locale of a successful run ends up as a generated type that returns its translations. |

## Left out

- File-system and Gradle work is a parameter or is left out. The model does not cover clearing and creating the output directory, creating the input directory, or writing a default `config.json` when none exists. Locale files arrive as a map from language to decoded document, and a missing map entry is a missing file.
- A missing default-language file is reported as `MissingLocaleFile`. The source fails with an I/O exception at `readText`.
- JSON decoding of `config.json` and the locale files is out of scope. The documents arrive already decoded as a `Json` tree. A non-primitive leaf (an array) fails as `MalformedInput`, where the source's `jsonPrimitive` throws. A locale document whose root is not an object fails as `MalformedInput` too, where the source's `decodeFromString<JsonObject>` throws.
- Each `error(...)` and exception is the corresponding `Error` value. A run's outcome is `Skipped`, `Failed(error)` or `Generated(map)`.
- Logging (`logger.lifecycle`, `warn` and `info`) is left out.
- `generateMetaFile` (the `K18nLanguage` enum, the `K18nMessage` interface and the default-language constant) is left out, as is the upper-casing of language names it and `translateTo` use. Upper-casing is Unicode case mapping, which the model does not have.
- KotlinPoet's emission and `writeTo` are left out. Files and types are `FileSpec`/`TypeDecl` values, and a `translateTo` body is its list of `when` branches.
- The regular-expression engine is replaced by a hand-written matcher for the one pattern used. `\w` is taken as ASCII letters, digits and `_`.
- Kotlin's whitespace test for `trim` is a fixed list of Unicode whitespace characters.
- Strings are sequences of code points. `sortedBy` compares UTF-16 units, so the model's order differs only for characters outside the Basic Multilingual Plane.
- `getOrPut` hands out a builder that is then mutated in place. The model writes the updated builder back under its name, so aliasing is not represented.
- `KotlinText.RemoveSuffix`: its contract states only that the suffix is removed or the input is kept. It does not say which happens when.
- Placeholders.ParseArguments: its own contract states only that the map is well formed; its outcome is stated by `Placeholders.ParseArgumentsSpec`.
- GenerateTask.PrimaryMap: its own contract states only that the map is well formed; its content is stated by the flattening lemmas.
- GenerateTask.LoadSecondary: its own contract states well-formedness and the key subset; its failure cases are stated by `GenerateTask.LoadSecondarySpec`.
- GenerateTask.SecondaryFrom: its own contract states only that the map is well formed; its outcome is stated by `GenerateTask.SecondaryFromOk`, `SecondaryFromErr`, `SecondaryFromKeys` and `SecondaryFromLoaded`.
- Flattening.StripDots: its own contract states only that kinds and primitives are kept; its effect on flattening is `Flattening.StripDotsFlatten`.
- KtGeneration.PackageOrder: its own contract states only membership; order and completeness are `KtGeneration.PackageOrderDistinct`.
