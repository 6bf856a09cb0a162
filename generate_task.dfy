/**
 * The body of the Gradle task: check the configuration, flatten the default
 * locale and every other locale, reject a locale with keys the default does
 * not have, then build one translation entry per default key (its arguments
 * and one rendered text per language that defines the key) and file it under
 * the key's package (everything before the last dot) and object name (the
 * rest).
 */
module GenerateTask {
  import opened Outcomes
  import opened KotlinText
  import opened OrderedMaps
  import opened Configs
  import opened Flattening
  import opened Placeholders

  /** A message: argument name to Kotlin type, and language to rendered text. */
  datatype TranslationEntry = TranslationEntry(arguments: OMap<string, string>, translations: OMap<string, string>)

  /** Object name to entry, within one package. */
  type Entries = OMap<string, TranslationEntry>

  /** Package name to its entries. */
  type FinalMap = OMap<string, Entries>

  datatype RunOutcome = Skipped | Failed(error: Error) | Generated(finalMap: FinalMap)

  /** The decoded locale documents, by language; a missing language has no file. */
  type LocaleFiles = map<string, Json>

  /** The default locale, flattened. */
  function PrimaryMap(config: Config, files: LocaleFiles): (r: Result<FlatMap>)
    ensures r.Ok? ==> Valid(r.value)
  {
    if config.defaultLanguage !in files then Err(MissingLocaleFile(config.defaultLanguage))
    else Flatten(files[config.defaultLanguage])
  }

  /** Another locale, flattened; it must exist and use only keys of the default. */
  function LoadSecondary(files: LocaleFiles, primary: FlatMap, language: string): (r: Result<FlatMap>)
    ensures r.Ok? ==> Valid(r.value) && r.value.values.Keys <= primary.values.Keys
  {
    if language !in files then Err(MissingLocaleFile(language))
    else match Flatten(files[language])
      case Err(e) => Err(e)
      case Ok(langMap) => if !(langMap.values.Keys <= primary.values.Keys) then Err(UnknownKey(language)) else Ok(langMap)
  }

  /**
   * Loading another locale fails with `MissingLocaleFile` when it has no file,
   * passes a flattening failure on unchanged, and otherwise fails with
   * `UnknownKey` exactly when it uses a key the default locale lacks; on
   * success it is the file's flattening.
   */
  lemma LoadSecondarySpec(files: LocaleFiles, primary: FlatMap, language: string)
    ensures var r := LoadSecondary(files, primary, language);
      && (language !in files ==> r == Err(MissingLocaleFile(language)))
      && (language in files && Flatten(files[language]).Err? ==> r == Err(Flatten(files[language]).error))
      && (language in files && Flatten(files[language]).Ok? ==>
            var langMap := Flatten(files[language]).value;
            && (r.Err? <==> !(langMap.values.Keys <= primary.values.Keys))
            && (r.Err? ==> r.error == UnknownKey(language))
            && (r.Ok? ==> r.value == langMap))
  {
  }

  /** The other locales from position `i` of the language list on, added to `acc` by language. */
  function SecondaryFrom(config: Config, files: LocaleFiles, primary: FlatMap, i: nat, acc: OMap<string, FlatMap>)
    : (r: Result<OMap<string, FlatMap>>)
    requires i <= |config.languages| && Valid(acc)
    ensures r.Ok? ==> Valid(r.value)
    decreases |config.languages| - i
  {
    if i == |config.languages| then Ok(acc)
    else
      var language := config.languages[i];
      if language == config.defaultLanguage then SecondaryFrom(config, files, primary, i + 1, acc)
      else match LoadSecondary(files, primary, language)
        case Err(e) => Err(e)
        case Ok(langMap) =>
          PutValid(acc, language, langMap);
          SecondaryFrom(config, files, primary, i + 1, Put(acc, language, langMap))
  }

  /**
   * The text of `key` in another language: its placeholders must resolve to
   * the same signature as the default's, and are then substituted.
   */
  function Translate(config: Config, key: string, args: OMap<string, ArgumentData>, language: string, value: string)
    : Result<string>
  {
    match ParseArguments(config, value)
    case Err(e) => Err(e)
    case Ok(secondaryArgs) =>
      if Signature(args) != Signature(secondaryArgs) then Err(ArgumentSignatureMismatch(key, language))
      else Ok(Substitute(value, Items(secondaryArgs)))
  }

  /** The step of the loop over the other locales: a language and its text of the key give the text to store, or stop the run. */
  type Translator = (string, string) -> Result<string>

  /** The loop body for `key`, whose default text has the placeholders `args`. */
  function TranslatorFor(config: Config, key: string, args: OMap<string, ArgumentData>): Translator {
    (language: string, value: string) => Translate(config, key, args, language, value)
  }

  /**
   * The translations of `key` into the other languages, in order, added to `acc`;
   * a language without the key is skipped.
   */
  function Translations(translate: Translator, key: string, secondaries: seq<(string, FlatMap)>, acc: OMap<string, string>)
    : (r: Result<OMap<string, string>>)
    decreases |secondaries|
  {
    if secondaries == [] then Ok(acc)
    else
      var language := secondaries[0].0;
      var langMap := secondaries[0].1;
      if key !in langMap.values then Translations(translate, key, secondaries[1..], acc)
      else match translate(language, langMap.values[key])
        case Err(e) => Err(e)
        case Ok(text) => Translations(translate, key, secondaries[1..], Put(acc, language, text))
  }

  function VariableTypes(items: seq<(string, ArgumentData)>): (r: seq<(string, string)>)
    ensures |r| == |items| && forall j :: 0 <= j < |r| ==> r[j] == (items[j].1.variableName, items[j].1.kClassName)
  {
    seq(|items|, j requires 0 <= j < |items| => (items[j].1.variableName, items[j].1.kClassName))
  }

  /** The entry's arguments: each placeholder's variable with its Kotlin class, in order. */
  function Arguments(args: OMap<string, ArgumentData>): OMap<string, string>
    requires Valid(args)
  {
    PutItems(Empty(), VariableTypes(Items(args)))
  }

  /** The entry for one key of the default locale. */
  function EntryFor(config: Config, key: string, value: string, secondaries: seq<(string, FlatMap)>)
    : Result<TranslationEntry>
  {
    match ParseArguments(config, value)
    case Err(e) => Err(e)
    case Ok(args) =>
      var first := Put(Empty(), config.defaultLanguage, Substitute(value, Items(args)));
      match Translations(TranslatorFor(config, key, args), key, secondaries, first)
      case Err(e) => Err(e)
      case Ok(translations) => Ok(TranslationEntry(Arguments(args), translations))
  }

  /** The package of a key: the part before its last dot, or empty. */
  function PackageOf(key: string): string {
    BeforeLast(key, '.', "")
  }

  /** The object name of a key: the part after its last dot, or the whole key. */
  function ObjectOf(key: string): string {
    AfterLast(key, '.')
  }

  /** `finalMap.getOrPut(packageName) { mutableMapOf() }[objName] = entry`. */
  function PlaceAt(acc: FinalMap, pkg: string, obj: string, entry: TranslationEntry): FinalMap {
    var entries: Entries := if pkg in acc.values then acc.values[pkg] else Empty();
    Put(acc, pkg, Put(entries, obj, entry))
  }

  /** Files `entry` under the package and object name of `key`. */
  function Place(acc: FinalMap, key: string, entry: TranslationEntry): FinalMap {
    PlaceAt(acc, PackageOf(key), ObjectOf(key), entry)
  }

  /** The step of the loop over the default locale: a key and its text give the key's entry, or stop the run. */
  type EntryBuilder = (string, string) -> Result<TranslationEntry>

  /** The loop body, given the other locales in the order of the language list. */
  function BuilderFor(config: Config, secondaries: seq<(string, FlatMap)>): EntryBuilder {
    (key: string, value: string) => EntryFor(config, key, value, secondaries)
  }

  /** The entries of the default locale's keys `items`, placed into `acc` in order. */
  function MergeFrom(build: EntryBuilder, items: seq<(string, string)>, acc: FinalMap): Result<FinalMap>
    decreases |items|
  {
    if items == [] then Ok(acc)
    else match build(items[0].0, items[0].1)
      case Err(e) => Err(e)
      case Ok(entry) => MergeFrom(build, items[1..], Place(acc, items[0].0, entry))
  }

  /** The outcome of the task for a configuration and the locale documents. */
  function Run(config: Config, files: LocaleFiles): (r: RunOutcome)
    ensures r.Skipped? <==> !Runnable(config)
  {
    if |config.languages| == 0 || config.defaultLanguage !in config.languages then Skipped
    else match PrimaryMap(config, files)
      case Err(e) => Failed(e)
      case Ok(primary) =>
        match SecondaryFrom(config, files, primary, 0, Empty())
        case Err(e) => Failed(e)
        case Ok(secondary) =>
          match MergeFrom(BuilderFor(config, Items(secondary)), Items(primary), Empty())
          case Err(e) => Failed(e)
          case Ok(finalMap) => Generated(finalMap)
  }

  /** The translation of one value, as the loop over the other languages does it. */
  method TranslateValue(config: Config, key: string, args: OMap<string, ArgumentData>, language: string, value: string)
    returns (r: Result<string>)
    ensures r == Translate(config, key, args, language, value)
  {
    var secondaryArgs := ParseArguments(config, value);
    if secondaryArgs.Err? {
      return Err(secondaryArgs.error);
    }
    if Signature(args) != Signature(secondaryArgs.value) {
      return Err(ArgumentSignatureMismatch(key, language));
    }
    var text := ReplaceArgumentsInLine(value, secondaryArgs.value);
    return Ok(text);
  }

  /** The `forEach` over the other locales: each language that defines `key` adds its translation to `translations`. */
  method TranslateAll(config: Config, key: string, args: OMap<string, ArgumentData>, secondaries: seq<(string, FlatMap)>,
                      translations: OMap<string, string>)
    returns (r: Result<OMap<string, string>>)
    ensures r == Translations(TranslatorFor(config, key, args), key, secondaries, translations)
  {
    ghost var translate := TranslatorFor(config, key, args);
    var acc := translations;
    var j := 0;
    while j < |secondaries|
      invariant 0 <= j <= |secondaries|
      invariant Translations(translate, key, secondaries[j..], acc) == Translations(translate, key, secondaries, translations)
    {
      assert secondaries[j..][1..] == secondaries[j + 1..];
      var language := secondaries[j].0;
      var langMap := secondaries[j].1;
      if key in langMap.values {
        var text := TranslateValue(config, key, args, language, langMap.values[key]);
        assert translate(language, langMap.values[key]) == text;
        if text.Err? {
          return Err(text.error);
        }
        acc := Put(acc, language, text.value);
      }
      j := j + 1;
    }
    assert secondaries[j..] == [];
    return Ok(acc);
  }

  /** The entry for one key: its arguments, then its translations language by language. */
  method BuildEntry(config: Config, key: string, primaryValue: string, secondaries: seq<(string, FlatMap)>)
    returns (r: Result<TranslationEntry>)
    ensures r == EntryFor(config, key, primaryValue, secondaries)
  {
    var args := ParseArguments(config, primaryValue);
    if args.Err? {
      return Err(args.error);
    }
    var line := ReplaceArgumentsInLine(primaryValue, args.value);
    var translations := TranslateAll(config, key, args.value, secondaries, Put(Empty(), config.defaultLanguage, line));
    if translations.Err? {
      return Err(translations.error);
    }
    return Ok(TranslationEntry(Arguments(args.value), translations.value));
  }

  /** Another locale read and flattened inside `generate`'s first loop, with the check that it adds no key. */
  method LoadLocale(files: LocaleFiles, primary: FlatMap, language: string) returns (r: Result<FlatMap>)
    ensures r == LoadSecondary(files, primary, language)
  {
    if language !in files {
      return Err(MissingLocaleFile(language));
    }
    var root := files[language];
    if !root.Object? {
      return Err(MalformedInput);
    }
    var langResult := FlattenObject(root, "");
    if langResult.Err? {
      return Err(langResult.error);
    }
    var langMap := langResult.value;
    if !(langMap.values.Keys <= primary.values.Keys) {
      return Err(UnknownKey(language));
    }
    return Ok(langMap);
  }

  /** One key of `generate`'s second loop: its entry is built and stored under its package and object name. */
  method MergeKey(config: Config, key: string, value: string, secondaries: seq<(string, FlatMap)>, finalMap: FinalMap)
    returns (r: Result<FinalMap>)
    ensures r == match EntryFor(config, key, value, secondaries)
      case Err(e) => Err(e)
      case Ok(entry) => Ok(Place(finalMap, key, entry))
  {
    var entry := BuildEntry(config, key, value, secondaries);
    if entry.Err? {
      return Err(entry.error);
    }
    var packageName := BeforeLast(key, '.', "");
    var objName := AfterLast(key, '.');
    var entries: Entries := if packageName in finalMap.values then finalMap.values[packageName] else Empty();
    return Ok(Put(finalMap, packageName, Put(entries, objName, entry.value)));
  }

  /** The loop over the configured languages that loads every locale other than the default. */
  method LoadLocales(config: Config, files: LocaleFiles, primaryMap: FlatMap) returns (r: Result<OMap<string, FlatMap>>)
    ensures r == SecondaryFrom(config, files, primaryMap, 0, Empty())
  {
    var secondaryMaps: OMap<string, FlatMap> := Empty();
    var i := 0;
    while i < |config.languages|
      invariant 0 <= i <= |config.languages| && Valid(secondaryMaps)
      invariant SecondaryFrom(config, files, primaryMap, i, secondaryMaps)
             == SecondaryFrom(config, files, primaryMap, 0, Empty())
    {
      var language := config.languages[i];
      if language != config.defaultLanguage {
        var loaded := LoadLocale(files, primaryMap, language);
        if loaded.Err? {
          return Err(loaded.error);
        }
        PutValid(secondaryMaps, language, loaded.value);
        secondaryMaps := Put(secondaryMaps, language, loaded.value);
      }
      i := i + 1;
    }
    return Ok(secondaryMaps);
  }

  /** The loop over the default locale's keys that files each key's entry into the merged map. */
  method MergeEntries(config: Config, primaryMap: FlatMap, secondaryMaps: OMap<string, FlatMap>) returns (r: Result<FinalMap>)
    requires Valid(primaryMap) && Valid(secondaryMaps)
    ensures r == MergeFrom(BuilderFor(config, Items(secondaryMaps)), Items(primaryMap), Empty())
  {
    var primaryItems := Items(primaryMap);
    var secondaryItems := Items(secondaryMaps);
    var finalMap: FinalMap := Empty();
    ghost var build := BuilderFor(config, secondaryItems);
    var k := 0;
    while k < |primaryItems|
      invariant 0 <= k <= |primaryItems|
      invariant MergeFrom(build, primaryItems[k..], finalMap) == MergeFrom(build, primaryItems, Empty())
    {
      assert primaryItems[k..][1..] == primaryItems[k + 1..];
      var placed := MergeKey(config, primaryItems[k].0, primaryItems[k].1, secondaryItems, finalMap);
      if placed.Err? {
        return Err(placed.error);
      }
      finalMap := placed.value;
      k := k + 1;
    }
    assert primaryItems[k..] == [];
    return Ok(finalMap);
  }

  /** The task's `generate`, up to the hand-over of the merged map to code generation. */
  method Generate(config: Config, files: LocaleFiles) returns (outcome: RunOutcome)
    ensures outcome == Run(config, files)
  {
    if |config.languages| == 0 {
      return Skipped;
    }
    if config.defaultLanguage !in config.languages {
      return Skipped;
    }
    if config.defaultLanguage !in files {
      return Failed(MissingLocaleFile(config.defaultLanguage));
    }
    var primaryRoot := files[config.defaultLanguage];
    if !primaryRoot.Object? {
      return Failed(MalformedInput);
    }
    var primaryResult := FlattenObject(primaryRoot, "");
    if primaryResult.Err? {
      return Failed(primaryResult.error);
    }
    var primaryMap := primaryResult.value;
    var secondaryResult := LoadLocales(config, files, primaryMap);
    if secondaryResult.Err? {
      return Failed(secondaryResult.error);
    }
    var merged := MergeEntries(config, primaryMap, secondaryResult.value);
    if merged.Err? {
      return Failed(merged.error);
    }
    return Generated(merged.value);
  }

  // ---------------------------------------------------------------------------
  // What the merge guarantees.

  /** Loading the other locales from position `i` on succeeds exactly when each of them other than the default loads. */
  lemma {:induction false} SecondaryFromOk(config: Config, files: LocaleFiles, primary: FlatMap, i: nat, acc: OMap<string, FlatMap>)
    requires i <= |config.languages| && Valid(acc)
    ensures var langs := config.languages;
      SecondaryFrom(config, files, primary, i, acc).Ok? <==>
        forall j :: i <= j < |langs| && langs[j] != config.defaultLanguage ==> LoadSecondary(files, primary, langs[j]).Ok?
    decreases |config.languages| - i
  {
    var langs := config.languages;
    if i < |langs| {
      var language := langs[i];
      if language == config.defaultLanguage {
        SecondaryFromOk(config, files, primary, i + 1, acc);
      } else if LoadSecondary(files, primary, language).Ok? {
        var langMap := LoadSecondary(files, primary, language).value;
        PutValid(acc, language, langMap);
        SecondaryFromOk(config, files, primary, i + 1, Put(acc, language, langMap));
      }
    }
  }

  /** `err` is the error of the first language from position `i` on, other than the default, that does not load. */
  ghost predicate FirstUnloaded(config: Config, files: LocaleFiles, primary: FlatMap, i: nat, err: Error) {
    var langs := config.languages;
    exists j ::
      && i <= j < |langs| && langs[j] != config.defaultLanguage
      && (forall m :: i <= m < j && langs[m] != config.defaultLanguage ==> LoadSecondary(files, primary, langs[m]).Ok?)
      && LoadSecondary(files, primary, langs[j]) == Err(err)
  }

  /** A failed load reports the first language other than the default that does not load. */
  lemma {:induction false} SecondaryFromErr(config: Config, files: LocaleFiles, primary: FlatMap, i: nat, acc: OMap<string, FlatMap>)
    requires i <= |config.languages| && Valid(acc)
    requires SecondaryFrom(config, files, primary, i, acc).Err?
    ensures FirstUnloaded(config, files, primary, i, SecondaryFrom(config, files, primary, i, acc).error)
    decreases |config.languages| - i
  {
    var langs := config.languages;
    var language := langs[i];
    var err := SecondaryFrom(config, files, primary, i, acc).error;
    if language == config.defaultLanguage {
      SecondaryFromErr(config, files, primary, i + 1, acc);
    } else if LoadSecondary(files, primary, language).Ok? {
      var langMap := LoadSecondary(files, primary, language).value;
      PutValid(acc, language, langMap);
      SecondaryFromErr(config, files, primary, i + 1, Put(acc, language, langMap));
    } else {
      assert LoadSecondary(files, primary, langs[i]) == Err(err);
    }
  }

  /**
   * A successful load maps exactly the languages of `acc` and the languages
   * from position `i` on other than the default, each to its flattened locale.
   */
  lemma SecondaryFromValues(config: Config, files: LocaleFiles, primary: FlatMap, i: nat, acc: OMap<string, FlatMap>)
    requires i <= |config.languages| && Valid(acc)
    requires forall l :: l in acc.values ==> LoadSecondary(files, primary, l) == Ok(acc.values[l])
    requires SecondaryFrom(config, files, primary, i, acc).Ok?
    ensures var r := SecondaryFrom(config, files, primary, i, acc).value;
      && (forall l :: l in r.values <==> l in acc.values || (l in config.languages[i..] && l != config.defaultLanguage))
      && (forall l :: l in r.values ==> LoadSecondary(files, primary, l) == Ok(r.values[l]))
  {
    SecondaryFromKeys(config, files, primary, i, acc);
    SecondaryFromLoaded(config, files, primary, i, acc);
  }

  /** The languages the loop adds are the other listed languages from position `i` on. */
  lemma {:induction false} SecondaryFromKeys(config: Config, files: LocaleFiles, primary: FlatMap, i: nat, acc: OMap<string, FlatMap>)
    requires i <= |config.languages| && Valid(acc)
    requires SecondaryFrom(config, files, primary, i, acc).Ok?
    ensures var r := SecondaryFrom(config, files, primary, i, acc).value;
      forall l :: l in r.values <==> l in acc.values || (l in config.languages[i..] && l != config.defaultLanguage)
    decreases |config.languages| - i
  {
    var langs := config.languages;
    if i < |langs| {
      var language := langs[i];
      assert langs[i..] == [language] + langs[i + 1..];
      if language == config.defaultLanguage {
        assert SecondaryFrom(config, files, primary, i, acc) == SecondaryFrom(config, files, primary, i + 1, acc);
        SecondaryFromKeys(config, files, primary, i + 1, acc);
      } else {
        var langMap := LoadSecondary(files, primary, language).value;
        PutValid(acc, language, langMap);
        assert SecondaryFrom(config, files, primary, i, acc) == SecondaryFrom(config, files, primary, i + 1, Put(acc, language, langMap));
        SecondaryFromKeys(config, files, primary, i + 1, Put(acc, language, langMap));
      }
    }
  }

  /** Every locale the loop holds is the one loaded for its language. */
  lemma {:induction false} SecondaryFromLoaded(config: Config, files: LocaleFiles, primary: FlatMap, i: nat, acc: OMap<string, FlatMap>)
    requires i <= |config.languages| && Valid(acc)
    requires forall l :: l in acc.values ==> LoadSecondary(files, primary, l) == Ok(acc.values[l])
    requires SecondaryFrom(config, files, primary, i, acc).Ok?
    ensures var r := SecondaryFrom(config, files, primary, i, acc).value;
      forall l :: l in r.values ==> LoadSecondary(files, primary, l) == Ok(r.values[l])
    decreases |config.languages| - i
  {
    var langs := config.languages;
    if i < |langs| {
      var language := langs[i];
      if language == config.defaultLanguage {
        assert SecondaryFrom(config, files, primary, i, acc) == SecondaryFrom(config, files, primary, i + 1, acc);
        SecondaryFromLoaded(config, files, primary, i + 1, acc);
      } else {
        var langMap := LoadSecondary(files, primary, language).value;
        PutValid(acc, language, langMap);
        assert SecondaryFrom(config, files, primary, i, acc) == SecondaryFrom(config, files, primary, i + 1, Put(acc, language, langMap));
        SecondaryFromLoaded(config, files, primary, i + 1, Put(acc, language, langMap));
      }
    }
  }

  /** The languages of `secondaries`, in order, whose locale defines `key`. */
  function LanguagesWith(key: string, secondaries: seq<(string, FlatMap)>): (r: seq<string>)
    ensures |r| <= |secondaries|
  {
    if secondaries == [] then []
    else (if key in secondaries[0].1.values then [secondaries[0].0] else []) + LanguagesWith(key, secondaries[1..])
  }

  /** A language is listed exactly when one of the locales under that language defines `key`. */
  lemma {:induction false} LanguagesWithSpec(key: string, secondaries: seq<(string, FlatMap)>)
    ensures forall l :: l in LanguagesWith(key, secondaries) <==>
      exists j :: 0 <= j < |secondaries| && secondaries[j].0 == l && key in secondaries[j].1.values
    decreases |secondaries|
  {
    if secondaries != [] {
      var rest := LanguagesWith(key, secondaries[1..]);
      LanguagesWithSpec(key, secondaries[1..]);
      forall l ensures l in LanguagesWith(key, secondaries) <==>
        exists j :: 0 <= j < |secondaries| && secondaries[j].0 == l && key in secondaries[j].1.values
      {
        if exists j :: 1 <= j < |secondaries| && secondaries[j].0 == l && key in secondaries[j].1.values {
          var j :| 1 <= j < |secondaries| && secondaries[j].0 == l && key in secondaries[j].1.values;
          assert secondaries[1..][j - 1] == secondaries[j];
        }
        if l in rest {
          var j :| 0 <= j < |secondaries[1..]| && secondaries[1..][j].0 == l && key in secondaries[1..][j].1.values;
          assert secondaries[j + 1] == secondaries[1..][j];
        }
      }
    }
  }

  /** The translations loop succeeds exactly when every other language that defines the key translates. */
  lemma {:induction false} TranslationsOk(translate: Translator, key: string, s: seq<(string, FlatMap)>, acc: OMap<string, string>)
    ensures Translations(translate, key, s, acc).Ok? <==>
      forall j :: 0 <= j < |s| && key in s[j].1.values ==> translate(s[j].0, s[j].1.values[key]).Ok?
    decreases |s|
  {
    if s != [] {
      var langMap := s[0].1;
      var t := if key in langMap.values then translate(s[0].0, langMap.values[key]) else Ok([]);
      var acc' := if key in langMap.values && t.Ok? then Put(acc, s[0].0, t.value) else acc;
      TranslationsOk(translate, key, s[1..], acc');
      assert forall j :: 1 <= j < |s| ==> s[j] == s[1..][j - 1];
    }
  }

  /** `err` is the error of the first language of `s` that defines the key and does not translate. */
  ghost predicate FirstUntranslated(translate: Translator, key: string, s: seq<(string, FlatMap)>, err: Error) {
    exists j ::
      && 0 <= j < |s| && key in s[j].1.values
      && (forall m :: 0 <= m < j && key in s[m].1.values ==> translate(s[m].0, s[m].1.values[key]).Ok?)
      && translate(s[j].0, s[j].1.values[key]) == Err(err)
  }

  /** The first untranslated language after one that translates or lacks the key is the first of the whole. */
  lemma FirstUntranslatedTail(translate: Translator, key: string, s: seq<(string, FlatMap)>, err: Error)
    requires s != [] && (key in s[0].1.values ==> translate(s[0].0, s[0].1.values[key]).Ok?)
    requires FirstUntranslated(translate, key, s[1..], err)
    ensures FirstUntranslated(translate, key, s, err)
  {
    var rest := s[1..];
    var j :| && 0 <= j < |rest| && key in rest[j].1.values
      && (forall m :: 0 <= m < j && key in rest[m].1.values ==> translate(rest[m].0, rest[m].1.values[key]).Ok?)
      && translate(rest[j].0, rest[j].1.values[key]) == Err(err);
    assert s[j + 1] == rest[j];
    forall m | 0 <= m < j + 1 && key in s[m].1.values ensures translate(s[m].0, s[m].1.values[key]).Ok? {
      if m > 0 {
        assert s[m] == rest[m - 1];
      }
    }
  }

  /** A failed translations loop reports the first language that defines the key and does not translate. */
  lemma {:induction false} TranslationsErr(translate: Translator, key: string, s: seq<(string, FlatMap)>, acc: OMap<string, string>)
    requires Translations(translate, key, s, acc).Err?
    ensures FirstUntranslated(translate, key, s, Translations(translate, key, s, acc).error)
    decreases |s|
  {
    var langMap := s[0].1;
    var err := Translations(translate, key, s, acc).error;
    if key !in langMap.values {
      assert Translations(translate, key, s[1..], acc) == Err(err);
      TranslationsErr(translate, key, s[1..], acc);
      FirstUntranslatedTail(translate, key, s, err);
    } else if translate(s[0].0, langMap.values[key]).Ok? {
      var acc' := Put(acc, s[0].0, translate(s[0].0, langMap.values[key]).value);
      assert Translations(translate, key, s[1..], acc') == Err(err);
      TranslationsErr(translate, key, s[1..], acc');
      FirstUntranslatedTail(translate, key, s, err);
    } else {
      assert translate(s[0].0, langMap.values[key]) == Err(err);
    }
  }

  /** The rest of the languages stay distinct, and none of them is in `acc` once the first language is added. */
  lemma TranslationsTail(s: seq<(string, FlatMap)>, acc: OMap<string, string>, acc': OMap<string, string>)
    requires s != []
    requires forall j, m :: 0 <= j < m < |s| ==> s[j].0 != s[m].0
    requires forall j :: 0 <= j < |s| ==> s[j].0 !in acc.values
    requires acc'.values.Keys <= acc.values.Keys + {s[0].0}
    ensures forall j, m :: 0 <= j < m < |s[1..]| ==> s[1..][j].0 != s[1..][m].0
    ensures forall j :: 0 <= j < |s[1..]| ==> s[1..][j].0 !in acc'.values
  {
    assert forall j :: 0 <= j < |s[1..]| ==> s[1..][j] == s[j + 1];
  }

  /** On success the translations are those of `acc` followed by every other language that defines the key, in order. */
  lemma {:induction false} TranslationsKeys(translate: Translator, key: string, s: seq<(string, FlatMap)>, acc: OMap<string, string>)
    requires Valid(acc)
    requires forall j, m :: 0 <= j < m < |s| ==> s[j].0 != s[m].0
    requires forall j :: 0 <= j < |s| ==> s[j].0 !in acc.values
    ensures var r := Translations(translate, key, s, acc);
      r.Ok? ==> Valid(r.value) && r.value.keys == acc.keys + LanguagesWith(key, s)
    decreases |s|
  {
    if s != [] {
      var language := s[0].0;
      var langMap := s[0].1;
      if key !in langMap.values {
        assert Translations(translate, key, s, acc) == Translations(translate, key, s[1..], acc);
        TranslationsTail(s, acc, acc);
        TranslationsKeys(translate, key, s[1..], acc);
        assert LanguagesWith(key, s) == LanguagesWith(key, s[1..]);
      } else {
        var t := translate(language, langMap.values[key]);
        if t.Ok? {
          var acc' := Put(acc, language, t.value);
          assert Translations(translate, key, s, acc) == Translations(translate, key, s[1..], acc');
          PutValid(acc, language, t.value);
          TranslationsTail(s, acc, acc');
          TranslationsKeys(translate, key, s[1..], acc');
          assert LanguagesWith(key, s) == [language] + LanguagesWith(key, s[1..]);
          assert acc'.keys == acc.keys + [language];
          assert acc'.keys + LanguagesWith(key, s[1..]) == acc.keys + LanguagesWith(key, s);
        }
      }
    }
  }

  /** On success each other language that defines the key holds its own text, and the texts of `acc` stay. */
  lemma {:induction false} TranslationsValues(translate: Translator, key: string, s: seq<(string, FlatMap)>, acc: OMap<string, string>)
    requires forall j, m :: 0 <= j < m < |s| ==> s[j].0 != s[m].0
    requires forall j :: 0 <= j < |s| ==> s[j].0 !in acc.values
    ensures var r := Translations(translate, key, s, acc);
      && (r.Ok? ==> forall l :: l in acc.values ==> l in r.value.values && r.value.values[l] == acc.values[l])
      && (r.Ok? ==> forall j :: 0 <= j < |s| && key in s[j].1.values ==>
            && translate(s[j].0, s[j].1.values[key]).Ok?
            && s[j].0 in r.value.values && r.value.values[s[j].0] == translate(s[j].0, s[j].1.values[key]).value)
    decreases |s|
  {
    TranslationsOk(translate, key, s, acc);
    if s != [] {
      var language := s[0].0;
      var langMap := s[0].1;
      if key !in langMap.values {
        TranslationsValues(translate, key, s[1..], acc);
        assert forall j :: 1 <= j < |s| ==> s[j] == s[1..][j - 1];
      } else {
        var t := translate(language, langMap.values[key]);
        if t.Ok? {
          var acc' := Put(acc, language, t.value);
          TranslationsValues(translate, key, s[1..], acc');
          assert forall j :: 1 <= j < |s| ==> s[j] == s[1..][j - 1];
          assert language in acc'.values && acc'.values[language] == t.value;
          assert forall l :: l in acc.values ==> l in acc'.values && acc'.values[l] == acc.values[l];
        }
      }
    }
  }

  /**
   * Another language's text is accepted exactly when it parses and its
   * placeholders resolve to the same classes as the default's; it is then that
   * text with its own placeholders substituted.
   */
  lemma TranslateSpec(config: Config, key: string, args: OMap<string, ArgumentData>, language: string, value: string)
    ensures var r := Translate(config, key, args, language, value);
      var other := ParseArguments(config, value);
      && (r.Ok? <==> other.Ok? && Signature(other.value) == Signature(args))
      && (r.Ok? ==> r.value == Substitute(value, Items(other.value)))
      && (other.Ok? && r.Err? ==> r.error == ArgumentSignatureMismatch(key, language))
      && (other.Err? ==> r == Err(other.error))
  {
  }

  /**
   * An entry exists exactly when the default text parses and every other
   * language that defines the key translates.
   */
  lemma EntryForOutcome(config: Config, key: string, value: string, s: seq<(string, FlatMap)>)
    ensures var parsed := ParseArguments(config, value);
      EntryFor(config, key, value, s).Ok? <==> parsed.Ok? && forall j :: 0 <= j < |s| && key in s[j].1.values ==>
        Translate(config, key, parsed.value, s[j].0, s[j].1.values[key]).Ok?
  {
    var parsed := ParseArguments(config, value);
    if parsed.Ok? {
      var args := parsed.value;
      TranslationsOk(TranslatorFor(config, key, args), key, s, Put(Empty(), config.defaultLanguage, Substitute(value, Items(args))));
    }
  }

  /**
   * An entry's arguments come from the default text's placeholders; its
   * translations are the default language, then every other language that
   * defines the key, in order; the default's text is the default value with its
   * placeholders substituted, and each other language's is its own translation.
   */
  lemma EntryForShape(config: Config, key: string, value: string, s: seq<(string, FlatMap)>)
    requires forall j, m :: 0 <= j < m < |s| ==> s[j].0 != s[m].0
    requires forall j :: 0 <= j < |s| ==> s[j].0 != config.defaultLanguage
    requires EntryFor(config, key, value, s).Ok?
    ensures ParseArguments(config, value).Ok?
    ensures var args := ParseArguments(config, value).value;
      var entry := EntryFor(config, key, value, s).value;
      var tr := entry.translations;
      && entry.arguments == Arguments(args)
      && Valid(tr) && tr.keys == [config.defaultLanguage] + LanguagesWith(key, s)
      && config.defaultLanguage in tr.values && tr.values[config.defaultLanguage] == Substitute(value, Items(args))
      && forall j :: 0 <= j < |s| && key in s[j].1.values ==>
           && Translate(config, key, args, s[j].0, s[j].1.values[key]).Ok?
           && s[j].0 in tr.values && tr.values[s[j].0] == Translate(config, key, args, s[j].0, s[j].1.values[key]).value
  {
    var args := ParseArguments(config, value).value;
    var first: OMap<string, string> := Put(Empty(), config.defaultLanguage, Substitute(value, Items(args)));
    PutValid(Empty(), config.defaultLanguage, Substitute(value, Items(args)));
    var translate := TranslatorFor(config, key, args);
    var r := Translations(translate, key, s, first);
    assert r.Ok? && EntryFor(config, key, value, s) == Ok(TranslationEntry(Arguments(args), r.value));
    TranslationsKeys(translate, key, s, first);
    TranslationsValues(translate, key, s, first);
    assert first.keys == [config.defaultLanguage];
    assert config.defaultLanguage in first.values;
  }

  // ---------------------------------------------------------------------------
  // Where entries are filed.

  /** The key whose package and object name are `pkg` and `obj`. */
  function SlotKey(pkg: string, obj: string): string {
    if pkg == [] then obj else pkg + "." + obj
  }

  /** A key that does not start with a dot is recovered from its package and object name. */
  lemma SlotKeyOf(key: string)
    requires key == [] || key[0] != '.'
    ensures SlotKey(PackageOf(key), ObjectOf(key)) == key
  {
    SplitAtLast(key, '.', "");
    if '.' in key {
      assert "." == ['.'];
    }
  }

  /** Keys that do not start with a dot are filed in different places. */
  lemma SlotsDiffer(k1: string, k2: string)
    requires k1 == [] || k1[0] != '.'
    requires k2 == [] || k2[0] != '.'
    requires k1 != k2
    ensures PackageOf(k1) != PackageOf(k2) || ObjectOf(k1) != ObjectOf(k2)
  {
    SlotKeyOf(k1);
    SlotKeyOf(k2);
  }

  ghost predicate InSlot(fm: FinalMap, pkg: string, obj: string) {
    pkg in fm.values && obj in fm.values[pkg].values
  }

  /** `key`'s entry in the merged map is `entry`. */
  ghost predicate Holds(fm: FinalMap, key: string, entry: TranslationEntry) {
    InSlot(fm, PackageOf(key), ObjectOf(key)) && fm.values[PackageOf(key)].values[ObjectOf(key)] == entry
  }

  /** Every package's entries are a well-formed ordered map, and so is the map of packages. */
  ghost predicate ValidFinal(fm: FinalMap) {
    Valid(fm) && forall p :: p in fm.values ==> Valid(fm.values[p])
  }

  /** Filing an entry in a place puts it there, adds no other place, and keeps every other place as it was. */
  lemma PlaceAtSpec(acc: FinalMap, pkg: string, obj: string, entry: TranslationEntry)
    ensures var r := PlaceAt(acc, pkg, obj, entry);
      && InSlot(r, pkg, obj) && r.values[pkg].values[obj] == entry
      && (forall p, o :: InSlot(r, p, o) <==> InSlot(acc, p, o) || (p == pkg && o == obj))
      && (forall p, o :: InSlot(acc, p, o) && (p != pkg || o != obj) ==> r.values[p].values[o] == acc.values[p].values[o])
  {
  }

  /** Filing an entry keeps the map of packages and every package's entries well formed. */
  lemma PlaceAtValid(acc: FinalMap, pkg: string, obj: string, entry: TranslationEntry)
    requires ValidFinal(acc)
    ensures ValidFinal(PlaceAt(acc, pkg, obj, entry))
  {
    var entries: Entries := if pkg in acc.values then acc.values[pkg] else Empty();
    PutValid(entries, obj, entry);
    PutValid(acc, pkg, Put(entries, obj, entry));
  }

  /** Filing an entry puts it in its key's place, and changes no other place. */
  lemma PlaceSpec(acc: FinalMap, key: string, entry: TranslationEntry)
    ensures Holds(Place(acc, key, entry), key, entry)
    ensures forall p, o :: InSlot(Place(acc, key, entry), p, o) <==> InSlot(acc, p, o) || (p == PackageOf(key) && o == ObjectOf(key))
    ensures forall p, o :: InSlot(acc, p, o) && (p != PackageOf(key) || o != ObjectOf(key)) ==>
      Place(acc, key, entry).values[p].values[o] == acc.values[p].values[o]
    ensures ValidFinal(acc) ==> ValidFinal(Place(acc, key, entry))
  {
    PlaceAtSpec(acc, PackageOf(key), ObjectOf(key), entry);
    if ValidFinal(acc) {
      PlaceAtValid(acc, PackageOf(key), ObjectOf(key), entry);
    }
  }

  /** The merge loop succeeds exactly when every key's entry can be built. */
  lemma {:induction false} MergeFromOk(build: EntryBuilder, items: seq<(string, string)>, acc: FinalMap)
    ensures MergeFrom(build, items, acc).Ok? <==> forall j :: 0 <= j < |items| ==> build(items[j].0, items[j].1).Ok?
    decreases |items|
  {
    if items != [] {
      var e := build(items[0].0, items[0].1);
      if e.Ok? {
        MergeFromOk(build, items[1..], Place(acc, items[0].0, e.value));
        assert forall j :: 1 <= j < |items| ==> items[j] == items[1..][j - 1];
      }
    }
  }

  /** `err` is the error of the first of `items` whose entry cannot be built. */
  ghost predicate FirstFailure(build: EntryBuilder, items: seq<(string, string)>, err: Error) {
    exists j ::
      && 0 <= j < |items|
      && (forall m :: 0 <= m < j ==> build(items[m].0, items[m].1).Ok?)
      && build(items[j].0, items[j].1) == Err(err)
  }

  /** The first failure after a key whose entry is built is the first failure of the whole. */
  lemma FirstFailureTail(build: EntryBuilder, items: seq<(string, string)>, err: Error)
    requires items != [] && build(items[0].0, items[0].1).Ok?
    requires FirstFailure(build, items[1..], err)
    ensures FirstFailure(build, items, err)
  {
    var rest := items[1..];
    var j :| && 0 <= j < |rest|
      && (forall m :: 0 <= m < j ==> build(rest[m].0, rest[m].1).Ok?)
      && build(rest[j].0, rest[j].1) == Err(err);
    assert items[j + 1] == rest[j];
    forall m | 0 <= m < j + 1 ensures build(items[m].0, items[m].1).Ok? {
      if m > 0 {
        assert items[m] == rest[m - 1];
      }
    }
  }

  /** A failed merge reports the error of the first key whose entry cannot be built. */
  lemma {:induction false} MergeFromErr(build: EntryBuilder, items: seq<(string, string)>, acc: FinalMap)
    requires MergeFrom(build, items, acc).Err?
    ensures FirstFailure(build, items, MergeFrom(build, items, acc).error)
    decreases |items|
  {
    var e := build(items[0].0, items[0].1);
    var err := MergeFrom(build, items, acc).error;
    if e.Ok? {
      var acc' := Place(acc, items[0].0, e.value);
      assert MergeFrom(build, items[1..], acc') == Err(err);
      MergeFromErr(build, items[1..], acc');
      FirstFailureTail(build, items, err);
    } else {
      assert build(items[0].0, items[0].1) == Err(err);
    }
  }

  lemma DistinctKeysTail(items: seq<(string, string)>)
    requires items != [] && Distinct(KeysOf(items))
    ensures Distinct(KeysOf(items[1..])) && items[0].0 !in KeysOf(items[1..])
  {
    var ks := KeysOf(items);
    var rs := KeysOf(items[1..]);
    assert forall a :: 0 <= a < |rs| ==> rs[a] == ks[a + 1];
  }

  /**
   * With distinct keys that do not start with a dot, a successful merge files
   * every key's entry in its place and keeps what was filed before under any
   * other key.
   */
  lemma {:induction false} MergeFromHolds(build: EntryBuilder, items: seq<(string, string)>, acc: FinalMap)
    requires Distinct(KeysOf(items))
    requires forall j :: 0 <= j < |items| ==> items[j].0 == [] || items[j].0[0] != '.'
    requires MergeFrom(build, items, acc).Ok?
    ensures var r := MergeFrom(build, items, acc).value;
      && (forall j :: 0 <= j < |items| ==>
            build(items[j].0, items[j].1).Ok? && Holds(r, items[j].0, build(items[j].0, items[j].1).value))
      && (forall key, e :: Holds(acc, key, e) && (key == [] || key[0] != '.') && key !in KeysOf(items) ==> Holds(r, key, e))
    decreases |items|
  {
    if items != [] {
      var key := items[0].0;
      var rest := items[1..];
      DistinctKeysTail(items);
      assert forall j :: 0 <= j < |rest| ==> rest[j] == items[j + 1];
      var e := build(key, items[0].1).value;
      var acc' := Place(acc, key, e);
      PlaceSpec(acc, key, e);
      MergeFromHolds(build, rest, acc');
      var r := MergeFrom(build, rest, acc').value;
      assert MergeFrom(build, items, acc).value == r;
      assert Holds(r, key, e);
      forall k, v | Holds(acc, k, v) && (k == [] || k[0] != '.') && k !in KeysOf(items) ensures Holds(r, k, v) {
        assert KeysOf(items)[0] == key;
        SlotsDiffer(k, key);
        assert Holds(acc', k, v);
        assert k !in KeysOf(rest);
      }
    }
  }

  /** A successful merge adds no place that is not some key's, and keeps the nested maps well formed. */
  lemma {:induction false} MergeFromSlots(build: EntryBuilder, items: seq<(string, string)>, acc: FinalMap)
    requires forall j :: 0 <= j < |items| ==> items[j].0 == [] || items[j].0[0] != '.'
    requires MergeFrom(build, items, acc).Ok?
    ensures var r := MergeFrom(build, items, acc).value;
      && (forall p, o :: InSlot(r, p, o) ==>
            || InSlot(acc, p, o)
            || (SlotKey(p, o) in KeysOf(items) && PackageOf(SlotKey(p, o)) == p && ObjectOf(SlotKey(p, o)) == o))
      && (ValidFinal(acc) ==> ValidFinal(r))
    decreases |items|
  {
    if items != [] {
      var key := items[0].0;
      var rest := items[1..];
      assert forall j :: 0 <= j < |rest| ==> rest[j] == items[j + 1];
      var e := build(key, items[0].1).value;
      var acc' := Place(acc, key, e);
      PlaceSpec(acc, key, e);
      MergeFromSlots(build, rest, acc');
      var r := MergeFrom(build, rest, acc').value;
      assert MergeFrom(build, items, acc).value == r;
      forall p, o | InSlot(r, p, o)
        ensures || InSlot(acc, p, o)
                || (SlotKey(p, o) in KeysOf(items) && PackageOf(SlotKey(p, o)) == p && ObjectOf(SlotKey(p, o)) == o)
      {
        if !InSlot(acc', p, o) {
          var b :| 0 <= b < |KeysOf(rest)| && KeysOf(rest)[b] == SlotKey(p, o);
          assert KeysOf(items)[b + 1] == SlotKey(p, o);
        } else if !InSlot(acc, p, o) {
          SlotKeyOf(key);
          assert KeysOf(items)[0] == SlotKey(p, o);
        }
      }
    }
  }

  // ---------------------------------------------------------------------------
  // The task as a whole.

  /** What the code generator relies on of every entry it is given. */
  ghost predicate WellFormedEntry(config: Config, entry: TranslationEntry) {
    && Valid(entry.arguments)
    && Valid(entry.translations)
    && |entry.translations.keys| > 0 && entry.translations.keys[0] == config.defaultLanguage
    && forall l :: l in entry.translations.values ==> l in config.languages
  }

  /**
   * A run generates exactly when the configuration is runnable, the default
   * locale flattens, every other configured language loads, and every key of
   * the default locale has an entry.
   */
  lemma RunOutcomeSpec(config: Config, files: LocaleFiles)
    ensures Run(config, files).Generated? <==>
      && Runnable(config)
      && PrimaryMap(config, files).Ok?
      && (forall l :: l in config.languages && l != config.defaultLanguage ==> LoadSecondary(files, PrimaryMap(config, files).value, l).Ok?)
      && var primary := PrimaryMap(config, files).value;
         var secondary := SecondaryFrom(config, files, primary, 0, Empty());
         && secondary.Ok?
         && forall k :: k in primary.values ==> EntryFor(config, k, primary.values[k], Items(secondary.value)).Ok?
  {
    if Runnable(config) && PrimaryMap(config, files).Ok? {
      var primary := PrimaryMap(config, files).value;
      SecondariesOk(config, files, primary);
      var secondary := SecondaryFrom(config, files, primary, 0, Empty());
      if secondary.Ok? {
        var build := BuilderFor(config, Items(secondary.value));
        MergeAllOk(build, primary);
        assert forall k :: k in primary.values ==> build(k, primary.values[k]) == EntryFor(config, k, primary.values[k], Items(secondary.value));
      }
    }
  }

  /** Loading the other locales succeeds exactly when every configured language other than the default loads. */
  lemma SecondariesOk(config: Config, files: LocaleFiles, primary: FlatMap)
    ensures SecondaryFrom(config, files, primary, 0, Empty()).Ok? <==>
      forall l :: l in config.languages && l != config.defaultLanguage ==> LoadSecondary(files, primary, l).Ok?
  {
    SecondaryFromOk(config, files, primary, 0, Empty());
    var langs := config.languages;
    assert (forall j :: 0 <= j < |langs| && langs[j] != config.defaultLanguage ==> LoadSecondary(files, primary, langs[j]).Ok?)
       <==> (forall l :: l in langs && l != config.defaultLanguage ==> LoadSecondary(files, primary, l).Ok?);
  }

  /** Merging the keys of a flattened locale succeeds exactly when every key's entry can be built. */
  lemma MergeAllOk(build: EntryBuilder, primary: FlatMap)
    requires Valid(primary)
    ensures MergeFrom(build, Items(primary), Empty()).Ok? <==> forall k :: k in primary.values ==> build(k, primary.values[k]).Ok?
  {
    var items := Items(primary);
    MergeFromOk(build, items, Empty());
    forall k | k in primary.values
      ensures exists j :: 0 <= j < |items| && items[j].0 == k
    {
      var i :| 0 <= i < |primary.keys| && primary.keys[i] == k;
      assert items[i].0 == k;
    }
    ItemsCover(build, primary.values, items);
  }

  /** Entries that list exactly the pairs of a map all build exactly when every pair of the map builds. */
  lemma ItemsCover(build: EntryBuilder, values: map<string, string>, items: seq<(string, string)>)
    requires forall j :: 0 <= j < |items| ==> items[j].0 in values && items[j].1 == values[items[j].0]
    requires forall k :: k in values ==> exists j :: 0 <= j < |items| && items[j].0 == k
    ensures (forall j :: 0 <= j < |items| ==> build(items[j].0, items[j].1).Ok?)
        <==> (forall k :: k in values ==> build(k, values[k]).Ok?)
  {
  }

  /** The keys of a flattened locale, in order, are distinct and none starts with a dot. */
  lemma PrimaryItems(primary: FlatMap)
    requires Valid(primary)
    requires forall k :: k in primary.values ==> k == [] || k[0] != '.'
    ensures Distinct(KeysOf(Items(primary)))
    ensures forall j :: 0 <= j < |Items(primary)| ==> Items(primary)[j].0 == [] || Items(primary)[j].0[0] != '.'
  {
    assert KeysOf(Items(primary)) == primary.keys;
  }

  /** Merging the keys of a flattened locale files each key's entry. */
  lemma MergeAllHolds(build: EntryBuilder, primary: FlatMap, fm: FinalMap)
    requires Valid(primary)
    requires forall k :: k in primary.values ==> k == [] || k[0] != '.'
    requires MergeFrom(build, Items(primary), Empty()) == Ok(fm)
    ensures forall k :: k in primary.values ==>
      build(k, primary.values[k]).Ok? && Holds(fm, k, build(k, primary.values[k]).value)
  {
    var items := Items(primary);
    PrimaryItems(primary);
    MergeFromHolds(build, items, Empty());
    forall k | k in primary.values
      ensures build(k, primary.values[k]).Ok? && Holds(fm, k, build(k, primary.values[k]).value)
    {
      var j :| 0 <= j < |primary.keys| && primary.keys[j] == k;
      assert items[j] == (k, primary.values[k]);
    }
  }

  /** Merging the keys of a flattened locale fills no place that is not some key's. */
  lemma MergeAllSlots(build: EntryBuilder, primary: FlatMap, fm: FinalMap)
    requires Valid(primary)
    requires forall k :: k in primary.values ==> k == [] || k[0] != '.'
    requires MergeFrom(build, Items(primary), Empty()) == Ok(fm)
    ensures ValidFinal(fm)
    ensures forall p, o :: InSlot(fm, p, o) ==>
      SlotKey(p, o) in primary.values && PackageOf(SlotKey(p, o)) == p && ObjectOf(SlotKey(p, o)) == o
  {
    PrimaryItems(primary);
    MergeFromSlots(build, Items(primary), Empty());
    assert KeysOf(Items(primary)) == primary.keys;
  }

  /**
   * A generated map files every key of the default locale, under its package
   * and object name, with that key's entry; it holds nothing else; and the
   * other locales it was built from are exactly the configured languages
   * other than the default.
   */
  lemma RunGenerated(config: Config, files: LocaleFiles)
    requires Run(config, files).Generated?
    ensures Runnable(config) && PrimaryMap(config, files).Ok?
    ensures SecondaryFrom(config, files, PrimaryMap(config, files).value, 0, Empty()).Ok?
    ensures var primary := PrimaryMap(config, files).value;
      var secondary := SecondaryFrom(config, files, primary, 0, Empty()).value;
      var fm := Run(config, files).finalMap;
      && ValidFinal(fm)
      && (forall l :: l in secondary.values <==> l in config.languages && l != config.defaultLanguage)
      && (forall l :: l in secondary.values ==> LoadSecondary(files, primary, l) == Ok(secondary.values[l]))
      && (forall k :: k in primary.values ==>
            && EntryFor(config, k, primary.values[k], Items(secondary)).Ok?
            && Holds(fm, k, EntryFor(config, k, primary.values[k], Items(secondary)).value))
      && (forall p, o :: InSlot(fm, p, o) ==>
            && SlotKey(p, o) in primary.values
            && PackageOf(SlotKey(p, o)) == p && ObjectOf(SlotKey(p, o)) == o)
  {
    var primary := PrimaryMap(config, files).value;
    var secondary := SecondaryFrom(config, files, primary, 0, Empty()).value;
    var fm := Run(config, files).finalMap;
    var build := BuilderFor(config, Items(secondary));
    assert MergeFrom(build, Items(primary), Empty()) == Ok(fm);
    SecondaryFromValues(config, files, primary, 0, Empty());
    assert config.languages[0..] == config.languages;
    FlattenNoLeadingDot(files[config.defaultLanguage]);
    MergeAllHolds(build, primary, fm);
    MergeAllSlots(build, primary, fm);
  }

  /**
   * Every generated entry is well formed: its arguments and translations are
   * ordered maps, the default language comes first, and only configured
   * languages appear.
   */
  lemma RunEntries(config: Config, files: LocaleFiles)
    requires Run(config, files).Generated?
    ensures var fm := Run(config, files).finalMap;
      && ValidFinal(fm)
      && forall p, o :: InSlot(fm, p, o) ==> WellFormedEntry(config, fm.values[p].values[o])
  {
    RunGenerated(config, files);
    var primary := PrimaryMap(config, files).value;
    var secondary := SecondaryFrom(config, files, primary, 0, Empty()).value;
    var s := Items(secondary);
    var fm := Run(config, files).finalMap;
    assert forall j :: 0 <= j < |s| ==> s[j].0 in secondary.values;
    forall p, o | InSlot(fm, p, o) ensures WellFormedEntry(config, fm.values[p].values[o]) {
      var k := SlotKey(p, o);
      EntryForWellFormed(config, k, primary.values[k], s);
    }
  }

  /** An entry built from other locales of configured languages other than the default is well formed. */
  lemma EntryForWellFormed(config: Config, key: string, value: string, s: seq<(string, FlatMap)>)
    requires config.defaultLanguage in config.languages
    requires forall j, m :: 0 <= j < m < |s| ==> s[j].0 != s[m].0
    requires forall j :: 0 <= j < |s| ==> s[j].0 != config.defaultLanguage && s[j].0 in config.languages
    requires EntryFor(config, key, value, s).Ok?
    ensures WellFormedEntry(config, EntryFor(config, key, value, s).value)
  {
    EntryForShape(config, key, value, s);
    var args := ParseArguments(config, value).value;
    PutItemsValid(Empty(), VariableTypes(Items(args)));
    var tr := EntryFor(config, key, value, s).value.translations;
    LanguagesWithSpec(key, s);
    forall l | l in tr.values ensures l in config.languages {
      assert l in tr.keys;
      if l != config.defaultLanguage {
        assert l in LanguagesWith(key, s);
      }
    }
  }
}
