/**
 * The code generator's decisions: which file each package of the merged map
 * goes to, how nested packages become groups inside their parent's file, what
 * type each message becomes, its constructor parameters, and the branches of
 * its `translateTo` function. The generated declarations are described as
 * values; printing them as Kotlin source is not part of this model.
 */
module KtGeneration {
  import opened Outcomes
  import opened KotlinText
  import opened OrderedMaps
  import opened Configs
  import opened GenerateTask

  /** A Kotlin class reference: its package and its simple name. */
  datatype ClassName = ClassName(packageName: string, simpleName: string)

  /** A primary constructor parameter; each one is also a property initialised from it. */
  datatype Param = Param(name: string, typeName: ClassName)

  /** One branch of `translateTo`'s `when`: the languages it matches and the text it returns. */
  datatype Arm = Arm(languages: seq<string>, text: string)

  /** A generated declaration. */
  datatype TypeDecl =
    | MessageObject(name: string, arms: seq<Arm>)
    | MessageClass(name: string, params: seq<Param>, properties: seq<Param>, arms: seq<Arm>)
    | Group(name: string, members: seq<TypeDecl>)

  /** A generated file: its package, its file name and its top-level declarations, in order. */
  datatype FileSpec = FileSpec(packageName: string, fileName: string, types: seq<TypeDecl>)

  /** The package under which generated code goes when `withBasePackage` is set. */
  const GeneratedPackage: string := "de.tectoast.k18n.generated"

  /** Every generated file is named `data`. */
  const DataFileName: string := "data"

  /** The prefix of a message type's name at file level, and of a group's name. */
  const TypePrefix: string := "K18n_"

  // ---------------------------------------------------------------------------
  // Class names.

  /** `identifierToClassName`: split at the last dot; a bare name is taken from package `kotlin`. */
  function IdentifierToClassName(identifier: string): ClassName {
    if '.' in identifier then ClassName(BeforeLast(identifier, '.', identifier), AfterLast(identifier, '.'))
    else ClassName("kotlin", identifier)
  }

  /** The fully qualified name of a class reference. */
  function CanonicalName(c: ClassName): string {
    c.packageName + "." + c.simpleName
  }

  /**
   * The class an identifier names is the identifier itself when it is
   * qualified, and `kotlin.` followed by it otherwise; the simple name never
   * holds a dot.
   */
  lemma IdentifierToClassNameSpec(identifier: string)
    ensures var c := IdentifierToClassName(identifier);
      && '.' !in c.simpleName
      && CanonicalName(c) == if '.' in identifier then identifier else "kotlin." + identifier
  {
    SplitAtLast(identifier, '.', identifier);
    assert "." == ['.'];
  }

  // ---------------------------------------------------------------------------
  // Files.

  /** The package of the file generated for `packageName`. */
  function FilePackage(config: Config, packageName: string): string {
    (if config.withBasePackage then GeneratedPackage + "." else "") + packageName
  }

  /** A fresh file for `packageName`, holding no declarations yet. */
  function NewFile(config: Config, packageName: string): FileSpec {
    FileSpec(FilePackage(config, packageName), DataFileName, [])
  }

  /** Different packages of the merged map are generated into different file packages. */
  lemma FilePackageInjective(config: Config, a: string, b: string)
    requires FilePackage(config, a) == FilePackage(config, b)
    ensures a == b
  {
    var prefix := if config.withBasePackage then GeneratedPackage + "." else "";
    assert a == FilePackage(config, a)[|prefix|..];
    assert b == FilePackage(config, b)[|prefix|..];
  }

  /**
   * The keys without a dot have the empty package, whose file package with the
   * base package set is the base package followed by a dot.
   */
  lemma TopLevelFilePackage(config: Config)
    requires config.withBasePackage
    ensures FilePackage(config, "") == "de.tectoast.k18n.generated."
    ensures FilePackage(config, "")[|FilePackage(config, "")| - 1] == '.'
  {
  }

  // ---------------------------------------------------------------------------
  // The branches of `translateTo`.

  /** `xs - ks`: the elements of `xs` not in `ks`, in order, repetitions kept. */
  function Minus(xs: seq<string>, ks: set<string>): seq<string>
    decreases |xs|
  {
    if xs == [] then [] else (if xs[0] in ks then [] else [xs[0]]) + Minus(xs[1..], ks)
  }

  lemma {:induction false} MinusMembers(xs: seq<string>, ks: set<string>)
    ensures forall x :: x in Minus(xs, ks) <==> x in xs && x !in ks
    decreases |xs|
  {
    if xs != [] {
      MinusMembers(xs[1..], ks);
      assert xs == [xs[0]] + xs[1..];
    }
  }

  /**
   * The branch for one translation: the default's branch also takes every
   * configured language without a translation of its own, and ends with the
   * default language.
   */
  function ArmFor(config: Config, translations: OMap<string, string>, language: string): Arm
    requires language in translations.values
  {
    var languages := if language == config.defaultLanguage
      then Minus(config.languages, translations.values.Keys) + [config.defaultLanguage]
      else [language];
    Arm(languages, translations.values[language])
  }

  /** One branch per translation, in the order of the translations. */
  function Arms(config: Config, translations: OMap<string, string>): seq<Arm>
    requires Valid(translations)
  {
    seq(|translations.keys|, i requires 0 <= i < |translations.keys| => ArmFor(config, translations, translations.keys[i]))
  }

  /** What a `when` over `arms` returns for `language`: the text of the first branch that lists it. */
  function Dispatch(arms: seq<Arm>, language: string): Option<string>
    decreases |arms|
  {
    if arms == [] then None
    else if language in arms[0].languages then Some(arms[0].text)
    else Dispatch(arms[1..], language)
  }

  /** A language listed by exactly one branch selects that branch. */
  lemma {:induction false} DispatchUnique(arms: seq<Arm>, language: string, a: nat)
    requires a < |arms| && language in arms[a].languages
    requires forall b :: 0 <= b < |arms| && language in arms[b].languages ==> b == a
    ensures Dispatch(arms, language) == Some(arms[a].text)
    decreases |arms|
  {
    if a > 0 {
      assert forall b :: 0 <= b < |arms[1..]| ==> arms[1..][b] == arms[b + 1];
      DispatchUnique(arms[1..], language, a - 1);
    }
  }

  /** A language no branch lists selects nothing. */
  lemma {:induction false} DispatchNone(arms: seq<Arm>, language: string)
    requires forall b :: 0 <= b < |arms| ==> language !in arms[b].languages
    ensures Dispatch(arms, language) == None
    decreases |arms|
  {
    if arms != [] {
      assert forall b :: 0 <= b < |arms[1..]| ==> arms[1..][b] == arms[b + 1];
      DispatchNone(arms[1..], language);
    }
  }

  /** Translations as the merge produces them: an ordered map holding the default and only configured languages. */
  ghost predicate Translatable(config: Config, translations: OMap<string, string>) {
    && Valid(translations)
    && config.defaultLanguage in translations.values
    && forall l :: l in translations.values ==> l in config.languages
  }

  /**
   * The languages of the branch for the `a`-th translation: the default's
   * branch lists the default and the configured languages without a
   * translation; any other branch lists its own language alone.
   */
  lemma ArmLanguages(config: Config, translations: OMap<string, string>, a: nat, l: string)
    requires Valid(translations) && a < |translations.keys|
    ensures var key := translations.keys[a];
      && Arms(config, translations)[a].text == translations.values[key]
      && (l in Arms(config, translations)[a].languages <==>
           if key == config.defaultLanguage then l == key || (l in config.languages && l !in translations.values)
           else l == key)
  {
    MinusMembers(config.languages, translations.values.Keys);
  }

  /**
   * When the translations include the default and only configured languages,
   * every configured language is listed by exactly one branch and nothing
   * else is listed.
   */
  lemma ArmsPartition(config: Config, translations: OMap<string, string>)
    requires Translatable(config, translations)
    ensures var arms := Arms(config, translations);
      && (forall a, l :: 0 <= a < |arms| && l in arms[a].languages ==> l in config.languages)
      && (forall a, b, l :: 0 <= a < |arms| && 0 <= b < |arms| && l in arms[a].languages && l in arms[b].languages ==> a == b)
      && (forall l :: l in config.languages ==> exists a :: 0 <= a < |arms| && l in arms[a].languages)
  {
    var tr := translations;
    var arms := Arms(config, tr);
    forall a, l | 0 <= a < |arms| && l in arms[a].languages ensures l in config.languages {
      ArmLanguages(config, tr, a, l);
    }
    forall a, b, l | 0 <= a < |arms| && 0 <= b < |arms| && l in arms[a].languages && l in arms[b].languages ensures a == b {
      ArmLanguages(config, tr, a, l);
      ArmLanguages(config, tr, b, l);
    }
    var d :| 0 <= d < |tr.keys| && tr.keys[d] == config.defaultLanguage;
    forall l | l in config.languages ensures exists a :: 0 <= a < |arms| && l in arms[a].languages {
      if l in tr.values {
        var a :| 0 <= a < |tr.keys| && tr.keys[a] == l;
        ArmLanguages(config, tr, a, l);
      } else {
        ArmLanguages(config, tr, d, l);
      }
    }
  }

  /**
   * The generated `translateTo` returns, for a configured language, its own
   * translation when there is one and the default language's otherwise; it
   * has no branch for any other language.
   */
  lemma ArmsDispatch(config: Config, translations: OMap<string, string>, language: string)
    requires Translatable(config, translations)
    ensures Dispatch(Arms(config, translations), language) ==
      if language !in config.languages then None
      else if language in translations.values then Some(translations.values[language])
      else Some(translations.values[config.defaultLanguage])
  {
    var tr := translations;
    var arms := Arms(config, tr);
    ArmsPartition(config, tr);
    if language !in config.languages {
      DispatchNone(arms, language);
    } else {
      var a :| 0 <= a < |arms| && language in arms[a].languages;
      DispatchUnique(arms, language, a);
      ArmLanguages(config, tr, a, language);
    }
  }

  // ---------------------------------------------------------------------------
  // Constructor parameters.

  /** The parameter for one argument: its variable, with the class its type identifier names. */
  function ParamFor(arguments: OMap<string, string>, name: string): Param
    requires name in arguments.values
  {
    Param(name, IdentifierToClassName(arguments.values[name]))
  }

  /** The parameters for the arguments, in their order. */
  function Params(arguments: OMap<string, string>): seq<Param>
    requires Valid(arguments)
  {
    seq(|arguments.keys|, i requires 0 <= i < |arguments.keys| => ParamFor(arguments, arguments.keys[i]))
  }

  /**
   * There is one parameter per argument, named after its variable and typed
   * by its identifier, and no two parameters share a name.
   */
  lemma ParamsSpec(arguments: OMap<string, string>)
    requires Valid(arguments)
    ensures var ps := Params(arguments);
      && (|ps| == 0 <==> arguments.values == map[])
      && (forall i, j :: 0 <= i < j < |ps| ==> ps[i].name != ps[j].name)
      && (forall v :: v in arguments.values ==> exists i :: 0 <= i < |ps| && ps[i] == Param(v, IdentifierToClassName(arguments.values[v])))
      && (forall i :: 0 <= i < |ps| ==> ps[i].name in arguments.values && ps[i].typeName == IdentifierToClassName(arguments.values[ps[i].name]))
  {
    var ps := Params(arguments);
    if arguments.values != map[] {
      var v :| v in arguments.values;
      assert v in arguments.keys;
    }
    if |arguments.keys| > 0 {
      assert arguments.keys[0] in arguments.values;
    }
    forall v | v in arguments.values
      ensures exists i :: 0 <= i < |ps| && ps[i] == Param(v, IdentifierToClassName(arguments.values[v]))
    {
      var i :| 0 <= i < |arguments.keys| && arguments.keys[i] == v;
      assert ps[i] == ParamFor(arguments, v);
    }
  }

  /**
   * `addConstructorParams`: one pass declares the primary constructor's
   * parameters and a second declares a property for each, both in the order
   * of the arguments.
   */
  method AddConstructorParams(arguments: OMap<string, string>) returns (params: seq<Param>, properties: seq<Param>)
    requires Valid(arguments)
    ensures params == Params(arguments) && properties == Params(arguments)
  {
    params := [];
    for i := 0 to |arguments.keys|
      invariant params == Params(arguments)[..i]
    {
      var name := arguments.keys[i];
      params := params + [Param(name, IdentifierToClassName(arguments.values[name]))];
    }
    properties := [];
    for i := 0 to |arguments.keys|
      invariant properties == Params(arguments)[..i]
    {
      var name := arguments.keys[i];
      properties := properties + [Param(name, IdentifierToClassName(arguments.values[name]))];
    }
    assert params == Params(arguments)[..|arguments.keys|];
  }

  // ---------------------------------------------------------------------------
  // Message types.

  /** Every entry of a package has well-formed arguments and translations. */
  ghost predicate EntriesValid(entries: Entries) {
    Valid(entries) && forall o :: o in entries.values ==> Valid(entries.values[o].arguments) && Valid(entries.values[o].translations)
  }

  /** A message's type name: prefixed at file level, bare inside a group. */
  function FinalName(objName: string, withPrefix: bool): string {
    if withPrefix then TypePrefix + objName else objName
  }

  /** The type for one entry: an object without arguments, a data class with them. */
  function MessageType(config: Config, objName: string, entry: TranslationEntry, withPrefix: bool): TypeDecl
    requires Valid(entry.arguments) && Valid(entry.translations)
  {
    var name := FinalName(objName, withPrefix);
    var arms := Arms(config, entry.translations);
    if entry.arguments.values == map[] then MessageObject(name, arms)
    else MessageClass(name, Params(entry.arguments), Params(entry.arguments), arms)
  }

  /** The types for a package's entries, in their order. */
  function EntryTypes(config: Config, entries: Entries, withPrefix: bool): seq<TypeDecl>
    requires EntriesValid(entries)
  {
    seq(|entries.keys|, i requires 0 <= i < |entries.keys| =>
      MessageType(config, entries.keys[i], entries.values[entries.keys[i]], withPrefix))
  }

  /** `t` is the type for an entry: its name, its kind, its parameters and what its `translateTo` returns. */
  ghost predicate Describes(config: Config, t: TypeDecl, objName: string, entry: TranslationEntry, withPrefix: bool)
    requires Valid(entry.arguments) && Translatable(config, entry.translations)
  {
    && !t.Group?
    && t.name == FinalName(objName, withPrefix)
    && (t.MessageObject? <==> entry.arguments.values == map[])
    && (t.MessageClass? ==> |t.params| > 0 && t.params == t.properties && t.params == Params(entry.arguments))
    && forall l :: Dispatch(t.arms, l) ==
         if l !in config.languages then None
         else if l in entry.translations.values then Some(entry.translations.values[l])
         else Some(entry.translations.values[config.defaultLanguage])
  }

  /**
   * A message is an object exactly when it has no arguments, and otherwise a
   * data class with at least one parameter, each also a property; its
   * `translateTo` returns each configured language's text, falling back to
   * the default's.
   */
  lemma MessageTypeSpec(config: Config, objName: string, entry: TranslationEntry, withPrefix: bool)
    requires Valid(entry.arguments) && Translatable(config, entry.translations)
    ensures Describes(config, MessageType(config, objName, entry, withPrefix), objName, entry, withPrefix)
  {
    var t := MessageType(config, objName, entry, withPrefix);
    ParamsSpec(entry.arguments);
    forall l ensures Dispatch(t.arms, l) ==
         if l !in config.languages then None
         else if l in entry.translations.values then Some(entry.translations.values[l])
         else Some(entry.translations.values[config.defaultLanguage])
    {
      ArmsDispatch(config, entry.translations, l);
    }
  }

  /** The type for one entry, as the loop over a package's entries builds it. */
  method WriteEntry(config: Config, objName: string, entry: TranslationEntry, withPrefix: bool) returns (t: TypeDecl)
    requires Valid(entry.arguments) && Valid(entry.translations)
    ensures t == MessageType(config, objName, entry, withPrefix)
  {
    var name := FinalName(objName, withPrefix);
    var arms := Arms(config, entry.translations);
    if entry.arguments.values == map[] {
      t := MessageObject(name, arms);
    } else {
      var params, properties := AddConstructorParams(entry.arguments);
      t := MessageClass(name, params, properties, arms);
    }
  }

  /** `writeEntries`: one type per entry of the package, in the entries' order. */
  method WriteEntries(config: Config, entries: Entries, withPrefix: bool) returns (types: seq<TypeDecl>)
    requires EntriesValid(entries)
    ensures types == EntryTypes(config, entries, withPrefix)
  {
    types := [];
    for i := 0 to |entries.keys|
      invariant types == EntryTypes(config, entries, withPrefix)[..i]
    {
      var objName := entries.keys[i];
      var t := WriteEntry(config, objName, entries.values[objName], withPrefix);
      types := types + [t];
    }
    assert types == EntryTypes(config, entries, withPrefix)[..|entries.keys|];
  }

  // ---------------------------------------------------------------------------
  // Files per package.

  /** Every package of the merged map holds well-formed entries. */
  ghost predicate FinalValid(finalMap: FinalMap) {
    Valid(finalMap) && forall p :: p in finalMap.values ==> EntriesValid(finalMap.values[p])
  }

  /** A package is nested when the nested suffix is configured and occurs in its name. */
  predicate IsNested(config: Config, packageName: string) {
    config.nestedSuffix.Some? && ContainsSub(packageName, config.nestedSuffix.value)
  }

  /** `substringBeforeLast(".")`: a name without a dot is its own parent. */
  function ParentPackage(packageName: string): string {
    BeforeLast(packageName, '.', packageName)
  }

  /** The group a nested package becomes: its last segment without the suffix, prefixed. */
  function GroupName(packageName: string, suffix: string): string {
    TypePrefix + RemoveSuffix(AfterLast(packageName, '.'), suffix)
  }

  /** The builder a package writes to: its parent's when nested, its own otherwise. */
  function Target(config: Config, packageName: string): string {
    if IsNested(config, packageName) then ParentPackage(packageName) else packageName
  }

  /** The group a nested package adds to its parent's file. */
  function GroupFor(config: Config, packageName: string, entries: Entries): TypeDecl
    requires IsNested(config, packageName) && EntriesValid(entries)
  {
    Group(GroupName(packageName, config.nestedSuffix.value), EntryTypes(config, entries, false))
  }

  function AddType(file: FileSpec, t: TypeDecl): FileSpec {
    file.(types := file.types + [t])
  }

  /**
   * One package of the loop: a nested package appends its group to its
   * parent's builder, creating that builder if needed; any other package gets
   * a new builder holding its entries, which replaces any builder of that name.
   */
  function Step(config: Config, builders: OMap<string, FileSpec>, packageName: string, entries: Entries): OMap<string, FileSpec>
    requires EntriesValid(entries)
  {
    if IsNested(config, packageName) then
      var parent := ParentPackage(packageName);
      var file := if parent in builders.values then builders.values[parent] else NewFile(config, parent);
      Put(builders, parent, AddType(file, GroupFor(config, packageName, entries)))
    else
      Put(builders, packageName, NewFile(config, packageName).(types := EntryTypes(config, entries, true)))
  }

  /** The loop from position `i` of the package order on. */
  function GenerateFrom(config: Config, finalMap: FinalMap, order: seq<string>, i: nat, builders: OMap<string, FileSpec>)
    : OMap<string, FileSpec>
    requires FinalValid(finalMap) && i <= |order|
    requires forall j :: 0 <= j < |order| ==> order[j] in finalMap.values
    decreases |order| - i
  {
    if i == |order| then builders
    else GenerateFrom(config, finalMap, order, i + 1, Step(config, builders, order[i], finalMap.values[order[i]]))
  }

  /** The packages of the merged map in the order the generator visits them. */
  function PackageOrder(finalMap: FinalMap): (order: seq<string>)
    requires Valid(finalMap)
    ensures forall j :: 0 <= j < |order| ==> order[j] in finalMap.values
  {
    var order := SortStrings(finalMap.keys);
    assert forall j :: 0 <= j < |order| ==> order[j] in multiset(finalMap.keys);
    order
  }

  /** The builders once every package has been visited. */
  function Files(config: Config, finalMap: FinalMap): OMap<string, FileSpec>
    requires FinalValid(finalMap)
  {
    GenerateFrom(config, finalMap, PackageOrder(finalMap), 0, Empty())
  }

  /** The body of `generate`'s loop for one package. */
  method VisitPackage(config: Config, builders: OMap<string, FileSpec>, packageName: string, entries: Entries)
    returns (updated: OMap<string, FileSpec>)
    requires EntriesValid(entries)
    ensures updated == Step(config, builders, packageName, entries)
  {
    updated := builders;
    if config.nestedSuffix.Some? && ContainsSub(packageName, config.nestedSuffix.value) {
      var parent := ParentPackage(packageName);
      ghost var file := if parent in builders.values then builders.values[parent] else NewFile(config, parent);
      if parent !in updated.values {
        updated := Put(updated, parent, NewFile(config, parent));
      }
      var parentBuilder := updated.values[parent];
      assert parentBuilder == file;
      var members := WriteEntries(config, entries, false);
      var group := Group(GroupName(packageName, config.nestedSuffix.value), members);
      assert group == GroupFor(config, packageName, entries);
      if parent !in builders.values {
        PutTwice(builders, parent, NewFile(config, parent), AddType(file, group));
      }
      updated := Put(updated, parent, AddType(parentBuilder, group));
    } else {
      var types := WriteEntries(config, entries, true);
      updated := Put(updated, packageName, FileSpec(FilePackage(config, packageName), DataFileName, types));
    }
  }

  /**
   * `generate`, without writing the files: the packages are visited in sorted
   * order and their declarations collected into one builder per file.
   */
  method Generate(config: Config, finalMap: FinalMap) returns (builders: OMap<string, FileSpec>)
    requires FinalValid(finalMap)
    ensures builders == Files(config, finalMap)
  {
    var order := PackageOrder(finalMap);
    builders := Empty();
    for i := 0 to |order|
      invariant GenerateFrom(config, finalMap, order, i, builders) == Files(config, finalMap)
    {
      builders := VisitPackage(config, builders, order[i], finalMap.values[order[i]]);
    }
  }

  // ---------------------------------------------------------------------------
  // What the generated files hold.

  /** A name with a dot has a parent that is a proper prefix of it. */
  lemma ParentIsPrefix(packageName: string)
    requires '.' in packageName
    ensures ParentPackage(packageName) <= packageName && ParentPackage(packageName) != packageName
  {
    var i := LastIndexOf(packageName, '.');
    LastIndexOfSpec(packageName, '.');
    assert packageName[i] == '.';
  }

  /**
   * In sorted order, no package is visited after a package that writes to
   * its builder: a nested package's parent is a proper prefix of it, and so
   * sorts before it. Hence a package that is not nested never replaces a
   * builder already holding declarations.
   */
  lemma NoOverwrite(config: Config, order: seq<string>, i: nat)
    requires Sorted(order) && Distinct(order) && i < |order| && !IsNested(config, order[i])
    ensures forall j :: 0 <= j < i ==> Target(config, order[j]) != order[i]
  {
    forall j | 0 <= j < i ensures Target(config, order[j]) != order[i] {
      if IsNested(config, order[j]) {
        var parent := ParentPackage(order[j]);
        if '.' in order[j] {
          ParentIsPrefix(order[j]);
          ProperPrefixLess(parent, order[j]);
        } else {
          SplitAtLast(order[j], '.', order[j]);
        }
      }
    }
  }

  /** Every builder is for the file package of its name, and is named `data`. */
  ghost predicate FilesNamed(config: Config, builders: OMap<string, FileSpec>) {
    && Valid(builders)
    && forall b :: b in builders.values ==> builders.values[b].packageName == FilePackage(config, b) && builders.values[b].fileName == DataFileName
  }

  /** The builders are exactly those the first `i` packages of `order` write to. */
  ghost predicate TargetsVisited(config: Config, order: seq<string>, i: nat, builders: OMap<string, FileSpec>)
    requires i <= |order|
  {
    forall b :: b in builders.values <==> exists j :: 0 <= j < i && Target(config, order[j]) == b
  }

  /** Each package among the first `i` that is not nested has a builder starting with its entries' types. */
  ghost predicate OwnVisited(config: Config, finalMap: FinalMap, order: seq<string>, i: nat, builders: OMap<string, FileSpec>)
    requires FinalValid(finalMap) && i <= |order|
    requires forall j :: 0 <= j < |order| ==> order[j] in finalMap.values
  {
    forall j :: 0 <= j < i && !IsNested(config, order[j]) ==>
      && order[j] in builders.values
      && EntryTypes(config, finalMap.values[order[j]], true) <= builders.values[order[j]].types
  }

  /** Each nested package among the first `i` has its group in its parent's builder. */
  ghost predicate GroupsVisited(config: Config, finalMap: FinalMap, order: seq<string>, i: nat, builders: OMap<string, FileSpec>)
    requires FinalValid(finalMap) && i <= |order|
    requires forall j :: 0 <= j < |order| ==> order[j] in finalMap.values
  {
    forall j :: 0 <= j < i && IsNested(config, order[j]) ==>
      && ParentPackage(order[j]) in builders.values
      && GroupFor(config, order[j], finalMap.values[order[j]]) in builders.values[ParentPackage(order[j])].types
  }

  /** One package's step adds at most its target's builder and changes no other. */
  lemma StepTargets(config: Config, builders: OMap<string, FileSpec>, packageName: string, entries: Entries)
    requires EntriesValid(entries)
    ensures var next := Step(config, builders, packageName, entries);
      var t := Target(config, packageName);
      && (forall b :: b in next.values <==> b in builders.values || b == t)
      && (forall b :: b in builders.values && b != t ==> next.values[b] == builders.values[b])
  {
  }

  /** A nested package's step extends its parent's declarations with its group. */
  lemma StepNested(config: Config, builders: OMap<string, FileSpec>, packageName: string, entries: Entries)
    requires EntriesValid(entries) && IsNested(config, packageName)
    ensures var next := Step(config, builders, packageName, entries);
      var t := ParentPackage(packageName);
      && t in next.values
      && (t in builders.values ==> builders.values[t].types <= next.values[t].types)
      && GroupFor(config, packageName, entries) in next.values[t].types
  {
    var t := ParentPackage(packageName);
    var file := if t in builders.values then builders.values[t] else NewFile(config, t);
    var g := GroupFor(config, packageName, entries);
    assert Step(config, builders, packageName, entries).values[t] == AddType(file, g);
    assert AddType(file, g).types[|file.types|] == g;
  }

  /** Any other package's step gives it a builder holding exactly its entries' types. */
  lemma StepOwn(config: Config, builders: OMap<string, FileSpec>, packageName: string, entries: Entries)
    requires EntriesValid(entries) && !IsNested(config, packageName)
    ensures var next := Step(config, builders, packageName, entries);
      packageName in next.values && next.values[packageName].types == EntryTypes(config, entries, true)
  {
  }

  /** Every step keeps the builders named after the file packages of their names. */
  lemma StepNamed(config: Config, builders: OMap<string, FileSpec>, packageName: string, entries: Entries)
    requires EntriesValid(entries) && FilesNamed(config, builders)
    ensures FilesNamed(config, Step(config, builders, packageName, entries))
  {
    var next := Step(config, builders, packageName, entries);
    var t := Target(config, packageName);
    PutValid(builders, t, next.values[t]);
  }

  /** The builders after one more package are those before and its target. */
  lemma TargetsAdvance(config: Config, order: seq<string>, i: nat, builders: OMap<string, FileSpec>, next: OMap<string, FileSpec>)
    requires i < |order| && TargetsVisited(config, order, i, builders)
    requires forall b :: b in next.values <==> b in builders.values || b == Target(config, order[i])
    ensures TargetsVisited(config, order, i + 1, next)
  {
    forall b | b in next.values ensures exists j :: 0 <= j < i + 1 && Target(config, order[j]) == b {
      if b in builders.values {
        var j :| 0 <= j < i && Target(config, order[j]) == b;
      }
    }
  }

  /**
   * In sorted order, the packages already visited keep their own types when
   * one more package is visited: only its target changes, and a package that
   * is not nested never targets a builder written before.
   */
  lemma OwnAdvance(config: Config, finalMap: FinalMap, order: seq<string>, i: nat, builders: OMap<string, FileSpec>, next: OMap<string, FileSpec>)
    requires FinalValid(finalMap) && i < |order|
    requires forall j :: 0 <= j < |order| ==> order[j] in finalMap.values
    requires Sorted(order) && Distinct(order)
    requires OwnVisited(config, finalMap, order, i, builders) && TargetsVisited(config, order, i, builders)
    requires forall b :: b in builders.values ==> b in next.values
    requires forall b :: b in builders.values && b != Target(config, order[i]) ==> next.values[b] == builders.values[b]
    requires IsNested(config, order[i]) && Target(config, order[i]) in builders.values ==>
      builders.values[Target(config, order[i])].types <= next.values[Target(config, order[i])].types
    requires !IsNested(config, order[i]) ==>
      order[i] in next.values && next.values[order[i]].types == EntryTypes(config, finalMap.values[order[i]], true)
    ensures OwnVisited(config, finalMap, order, i + 1, next)
  {
    if !IsNested(config, order[i]) {
      NoOverwrite(config, order, i);
    }
  }

  /** The groups already added stay when one more package is visited, and a nested one adds its own. */
  lemma GroupsAdvance(config: Config, finalMap: FinalMap, order: seq<string>, i: nat, builders: OMap<string, FileSpec>, next: OMap<string, FileSpec>)
    requires FinalValid(finalMap) && i < |order|
    requires forall j :: 0 <= j < |order| ==> order[j] in finalMap.values
    requires Sorted(order) && Distinct(order)
    requires GroupsVisited(config, finalMap, order, i, builders) && TargetsVisited(config, order, i, builders)
    requires forall b :: b in builders.values ==> b in next.values
    requires forall b :: b in builders.values && b != Target(config, order[i]) ==> next.values[b] == builders.values[b]
    requires IsNested(config, order[i]) && Target(config, order[i]) in builders.values ==>
      builders.values[Target(config, order[i])].types <= next.values[Target(config, order[i])].types
    requires IsNested(config, order[i]) ==>
      && ParentPackage(order[i]) in next.values
      && GroupFor(config, order[i], finalMap.values[order[i]]) in next.values[ParentPackage(order[i])].types
    ensures GroupsVisited(config, finalMap, order, i + 1, next)
  {
    if !IsNested(config, order[i]) {
      NoOverwrite(config, order, i);
    }
    forall j | 0 <= j < i && IsNested(config, order[j])
      ensures GroupFor(config, order[j], finalMap.values[order[j]]) in next.values[ParentPackage(order[j])].types
    {
      var b := ParentPackage(order[j]);
      assert GroupFor(config, order[j], finalMap.values[order[j]]) in builders.values[b].types;
    }
  }

  /** Visiting one more package in sorted order keeps what the builders hold and adds its declarations. */
  lemma StepVisits(config: Config, finalMap: FinalMap, order: seq<string>, i: nat, builders: OMap<string, FileSpec>)
    requires FinalValid(finalMap) && i < |order|
    requires forall j :: 0 <= j < |order| ==> order[j] in finalMap.values
    requires Sorted(order) && Distinct(order)
    requires TargetsVisited(config, order, i, builders)
    requires OwnVisited(config, finalMap, order, i, builders)
    requires GroupsVisited(config, finalMap, order, i, builders)
    ensures var next := Step(config, builders, order[i], finalMap.values[order[i]]);
      && TargetsVisited(config, order, i + 1, next)
      && OwnVisited(config, finalMap, order, i + 1, next)
      && GroupsVisited(config, finalMap, order, i + 1, next)
  {
    var pkg := order[i];
    var entries := finalMap.values[pkg];
    var next := Step(config, builders, pkg, entries);
    StepTargets(config, builders, pkg, entries);
    if IsNested(config, pkg) {
      StepNested(config, builders, pkg, entries);
    } else {
      StepOwn(config, builders, pkg, entries);
    }
    TargetsAdvance(config, order, i, builders, next);
    OwnAdvance(config, finalMap, order, i, builders, next);
    GroupsAdvance(config, finalMap, order, i, builders, next);
  }

  lemma {:induction false} GenerateFromVisits(config: Config, finalMap: FinalMap, order: seq<string>, i: nat, builders: OMap<string, FileSpec>)
    requires FinalValid(finalMap) && i <= |order|
    requires forall j :: 0 <= j < |order| ==> order[j] in finalMap.values
    requires Sorted(order) && Distinct(order)
    requires FilesNamed(config, builders)
    requires TargetsVisited(config, order, i, builders)
    requires OwnVisited(config, finalMap, order, i, builders)
    requires GroupsVisited(config, finalMap, order, i, builders)
    ensures var files := GenerateFrom(config, finalMap, order, i, builders);
      && FilesNamed(config, files)
      && TargetsVisited(config, order, |order|, files)
      && OwnVisited(config, finalMap, order, |order|, files)
      && GroupsVisited(config, finalMap, order, |order|, files)
    decreases |order| - i
  {
    if i < |order| {
      StepNamed(config, builders, order[i], finalMap.values[order[i]]);
      StepVisits(config, finalMap, order, i, builders);
      GenerateFromVisits(config, finalMap, order, i + 1, Step(config, builders, order[i], finalMap.values[order[i]]));
    }
  }

  /** A sequence without repetitions holds each element at most once. */
  lemma {:induction false} DistinctMultiplicity(s: seq<string>)
    requires Distinct(s)
    ensures forall x :: multiset(s)[x] <= 1
    decreases |s|
  {
    if s != [] {
      var init := s[..|s| - 1];
      assert s == init + [s[|s| - 1]];
      assert Distinct(init) by {
        forall a, b | 0 <= a < b < |init| ensures init[a] != init[b] {
          assert init[a] == s[a] && init[b] == s[b];
        }
      }
      DistinctMultiplicity(init);
      assert s[|s| - 1] !in init by {
        forall a | 0 <= a < |init| ensures init[a] != s[|s| - 1] {
          assert init[a] == s[a];
        }
      }
    }
  }

  /** An element found at two positions occurs at least twice. */
  lemma TwoPositions(s: seq<string>, a: nat, b: nat)
    requires a < b < |s|
    ensures s[a] == s[b] ==> multiset(s)[s[a]] >= 2
  {
    assert s == s[..b] + s[b..];
    assert s[a] in s[..b] && s[b] in s[b..];
  }

  /** A rearrangement of a sequence without repetitions has none either. */
  lemma PermutationDistinct(s: seq<string>, t: seq<string>)
    requires multiset(s) == multiset(t) && Distinct(t)
    ensures Distinct(s)
  {
    DistinctMultiplicity(t);
    forall a, b | 0 <= a < b < |s| ensures s[a] != s[b] {
      TwoPositions(s, a, b);
    }
  }

  /** The sorted packages are distinct, as the keys of the merged map are. */
  lemma PackageOrderDistinct(finalMap: FinalMap)
    requires Valid(finalMap)
    ensures Distinct(PackageOrder(finalMap)) && Sorted(PackageOrder(finalMap))
    ensures forall p :: p in finalMap.values ==> p in PackageOrder(finalMap)
  {
    var order := PackageOrder(finalMap);
    PermutationDistinct(order, finalMap.keys);
    forall p | p in finalMap.values ensures p in order {
      assert p in multiset(finalMap.keys);
    }
  }

  /** Every package is visited, in sorted order, and the visit establishes what the builders hold. */
  lemma FilesVisited(config: Config, finalMap: FinalMap)
    requires FinalValid(finalMap)
    ensures var order := PackageOrder(finalMap);
      var files := Files(config, finalMap);
      && (forall p :: p in finalMap.values ==> p in order)
      && FilesNamed(config, files)
      && TargetsVisited(config, order, |order|, files)
      && OwnVisited(config, finalMap, order, |order|, files)
      && GroupsVisited(config, finalMap, order, |order|, files)
  {
    var order := PackageOrder(finalMap);
    PackageOrderDistinct(finalMap);
    GenerateFromVisits(config, finalMap, order, 0, Empty());
  }

  /** Once every package of the map is visited, the builders are those the packages write to. */
  lemma TargetsComplete(config: Config, finalMap: FinalMap, order: seq<string>, files: OMap<string, FileSpec>)
    requires TargetsVisited(config, order, |order|, files)
    requires forall j :: 0 <= j < |order| ==> order[j] in finalMap.values
    requires forall p :: p in finalMap.values ==> p in order
    ensures forall b :: b in files.values <==> exists p :: p in finalMap.values && Target(config, p) == b
  {
    forall b | b in files.values ensures exists p :: p in finalMap.values && Target(config, p) == b {
      var j :| 0 <= j < |order| && Target(config, order[j]) == b;
      assert order[j] in finalMap.values;
    }
    forall b | exists p :: p in finalMap.values && Target(config, p) == b ensures b in files.values {
      var p :| p in finalMap.values && Target(config, p) == b;
      var j :| 0 <= j < |order| && order[j] == p;
    }
  }

  /**
   * The generated files: one per package that is not nested and one per
   * parent of a nested package, each in the file package of its name and
   * named `data`.
   */
  lemma FilesNames(config: Config, finalMap: FinalMap)
    requires FinalValid(finalMap)
    ensures var files := Files(config, finalMap);
      && FilesNamed(config, files)
      && (forall b :: b in files.values <==> exists p :: p in finalMap.values && Target(config, p) == b)
  {
    FilesVisited(config, finalMap);
    TargetsComplete(config, finalMap, PackageOrder(finalMap), Files(config, finalMap));
  }

  /**
   * No declaration is lost: a package that is not nested has its own file,
   * which starts with the types of its entries, and a nested package's
   * entries form a group in its parent's file.
   */
  lemma FilesHoldEntries(config: Config, finalMap: FinalMap)
    requires FinalValid(finalMap)
    ensures var files := Files(config, finalMap);
      && (forall p :: p in finalMap.values && !IsNested(config, p) ==>
            p in files.values && EntryTypes(config, finalMap.values[p], true) <= files.values[p].types)
      && (forall p :: p in finalMap.values && IsNested(config, p) ==>
            ParentPackage(p) in files.values && GroupFor(config, p, finalMap.values[p]) in files.values[ParentPackage(p)].types)
  {
    FilesVisited(config, finalMap);
    VisitedHoldEntries(config, finalMap, PackageOrder(finalMap), Files(config, finalMap));
  }

  /** Once every package is visited, each package's types are where `FilesHoldEntries` says. */
  lemma VisitedHoldEntries(config: Config, finalMap: FinalMap, order: seq<string>, files: OMap<string, FileSpec>)
    requires FinalValid(finalMap)
    requires forall j :: 0 <= j < |order| ==> order[j] in finalMap.values
    requires forall p :: p in finalMap.values ==> p in order
    requires OwnVisited(config, finalMap, order, |order|, files)
    requires GroupsVisited(config, finalMap, order, |order|, files)
    ensures forall p :: p in finalMap.values && !IsNested(config, p) ==>
      p in files.values && EntryTypes(config, finalMap.values[p], true) <= files.values[p].types
    ensures forall p :: p in finalMap.values && IsNested(config, p) ==>
      ParentPackage(p) in files.values && GroupFor(config, p, finalMap.values[p]) in files.values[ParentPackage(p)].types
  {
    forall p | p in finalMap.values ensures exists j :: 0 <= j < |order| && order[j] == p {
    }
  }

  // ---------------------------------------------------------------------------
  // From the locale documents to the generated types.

  /** Every entry of a package yields a type describing it among the package's types. */
  lemma EntryTypesDescribe(config: Config, entries: Entries, withPrefix: bool, objName: string)
    requires EntriesValid(entries) && objName in entries.values
    requires Translatable(config, entries.values[objName].translations)
    ensures exists t :: t in EntryTypes(config, entries, withPrefix) && Describes(config, t, objName, entries.values[objName], withPrefix)
  {
    var i :| 0 <= i < |entries.keys| && entries.keys[i] == objName;
    MessageTypeSpec(config, objName, entries.values[objName], withPrefix);
    assert EntryTypes(config, entries, withPrefix)[i] == MessageType(config, objName, entries.values[objName], withPrefix);
  }

  /** The merged map of a run is what the generator accepts, and its translations are all translatable. */
  lemma RunFeedsGenerator(config: Config, locales: LocaleFiles)
    requires Run(config, locales).Generated?
    ensures var fm := Run(config, locales).finalMap;
      && FinalValid(fm)
      && forall p, o :: InSlot(fm, p, o) ==> Translatable(config, fm.values[p].values[o].translations)
  {
    var fm := Run(config, locales).finalMap;
    RunEntries(config, locales);
    forall p, o | InSlot(fm, p, o) ensures Translatable(config, fm.values[p].values[o].translations) {
      var tr := fm.values[p].values[o].translations;
      assert WellFormedEntry(config, fm.values[p].values[o]);
      assert tr.keys[0] in tr.values;
    }
  }

  /**
   * Every filled place of a map the generator accepts becomes a generated
   * type: in its package's own file under the prefixed name when the package
   * is not nested, and otherwise under its bare name in the group the package
   * forms in the parent's file.
   */
  lemma SlotIsGenerated(config: Config, fm: FinalMap, pkg: string, obj: string)
    requires FinalValid(fm) && InSlot(fm, pkg, obj)
    requires Translatable(config, fm.values[pkg].values[obj].translations)
    ensures var entry := fm.values[pkg].values[obj];
      var files := Files(config, fm);
      && (!IsNested(config, pkg) ==>
            && pkg in files.values
            && exists t :: t in files.values[pkg].types && Describes(config, t, obj, entry, true))
      && (IsNested(config, pkg) ==>
            && ParentPackage(pkg) in files.values
            && GroupFor(config, pkg, fm.values[pkg]) in files.values[ParentPackage(pkg)].types
            && exists t :: t in GroupFor(config, pkg, fm.values[pkg]).members && Describes(config, t, obj, entry, false))
  {
    FilesHoldEntries(config, fm);
    EntryTypesDescribe(config, fm.values[pkg], !IsNested(config, pkg), obj);
  }

  /**
   * Every key of the default locale ends up as a generated type, as
   * `SlotIsGenerated` describes. That type is an object exactly when the
   * key's text has no placeholders, and its `translateTo` returns each
   * configured language's translation, falling back to the default's.
   */
  lemma KeyIsGenerated(config: Config, locales: LocaleFiles, key: string)
    requires Run(config, locales).Generated?
    requires PrimaryMap(config, locales).Ok? && key in PrimaryMap(config, locales).value.values
    ensures var fm := Run(config, locales).finalMap;
      var pkg := PackageOf(key);
      && FinalValid(fm)
      && InSlot(fm, pkg, ObjectOf(key))
      && var entry := fm.values[pkg].values[ObjectOf(key)];
         var files := Files(config, fm);
         && Valid(entry.arguments) && Translatable(config, entry.translations)
         && (!IsNested(config, pkg) ==>
               && pkg in files.values
               && exists t :: t in files.values[pkg].types && Describes(config, t, ObjectOf(key), entry, true))
         && (IsNested(config, pkg) ==>
               && ParentPackage(pkg) in files.values
               && GroupFor(config, pkg, fm.values[pkg]) in files.values[ParentPackage(pkg)].types
               && exists t :: t in GroupFor(config, pkg, fm.values[pkg]).members && Describes(config, t, ObjectOf(key), entry, false))
  {
    var fm := Run(config, locales).finalMap;
    RunGenerated(config, locales);
    RunFeedsGenerator(config, locales);
    assert InSlot(fm, PackageOf(key), ObjectOf(key));
    SlotIsGenerated(config, fm, PackageOf(key), ObjectOf(key));
  }
}
