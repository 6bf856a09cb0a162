/**
 * The generator's configuration record and its type resolution: how a
 * placeholder's type identifier becomes a Kotlin class name and the
 * expression that is spliced into the message text.
 */
module Configs {
  import opened Outcomes
  import opened KotlinText

  /** A user-declared placeholder type: its Kotlin class and a template holding `{var}`. */
  datatype CustomArgumentType = CustomArgumentType(kClassName: string, formatStringTemplate: string)

  /** One resolved placeholder: its Kotlin class, its variable, and the expression rendered in the text. */
  datatype ArgumentData = ArgumentData(kClassName: string, variableName: string, formattedString: string)

  datatype Config = Config(
    languages: seq<string>,
    defaultLanguage: string,
    withBasePackage: bool,
    nestedSuffix: Option<string>,
    customClasses: map<string, CustomArgumentType>)

  /** The identifiers resolved to a Kotlin class of the same name. */
  const NativeClasses: set<string> := {"String", "Int", "Long", "Float", "Double", "Boolean", "Char"}

  /** The marker a custom template uses for the variable. */
  const VariableMarker: string := "{var}"

  /** The configuration written when none exists. */
  function DefaultConfig(): (c: Config)
    ensures c.languages == ["de", "en"] && c.defaultLanguage == "de"
    ensures c.withBasePackage && c.nestedSuffix == Some("_nested")
    ensures c.customClasses == map["Mention" := CustomArgumentType("Long", "<@{var}>")]
  {
    Config(["de", "en"], "de", true, Some("_nested"), map["Mention" := CustomArgumentType("Long", "<@{var}>")])
  }

  /** A run proceeds only with at least one language and the default among them. */
  predicate Runnable(config: Config) {
    |config.languages| > 0 && config.defaultLanguage in config.languages
  }

  /**
   * `Config.build`: the custom table is consulted first, then the native names;
   * anything else is an unknown type. The variable name is carried through unchanged.
   */
  function Build(config: Config, variableName: string, identifier: string): Result<ArgumentData> {
    if identifier in config.customClasses then
      var custom := config.customClasses[identifier];
      Ok(ArgumentData(
        custom.kClassName,
        variableName,
        "\"" + ReplaceAll(custom.formatStringTemplate, VariableMarker, "$" + variableName) + "\""))
    else if identifier in NativeClasses then
      Ok(ArgumentData(identifier, variableName, variableName))
    else
      Err(UnknownArgumentType(identifier, variableName))
  }

  /**
   * `Config.build` resolves exactly the custom and the native identifiers, and
   * keeps the variable name. A custom identifier wins over a native one of the
   * same name: its class is the table's, and its text is the template, quoted,
   * with every `{var}` replaced by `$` and the variable name. A native
   * identifier is its own class and renders as the bare variable name. Anything
   * else is reported with the identifier and the variable.
   */
  lemma BuildSpec(config: Config, variableName: string, identifier: string)
    ensures var r := Build(config, variableName, identifier);
      && (r.Ok? <==> identifier in config.customClasses || identifier in NativeClasses)
      && (r.Ok? ==> r.value.variableName == variableName)
      && (identifier in config.customClasses ==>
            var custom := config.customClasses[identifier];
            && r.Ok?
            && r.value.kClassName == custom.kClassName
            && r.value.formattedString == "\"" + ReplaceAll(custom.formatStringTemplate, VariableMarker, "$" + variableName) + "\"")
      && (identifier !in config.customClasses && identifier in NativeClasses ==>
            r.Ok? && r.value.kClassName == identifier && r.value.formattedString == variableName)
      && (r.Err? ==> r.error == UnknownArgumentType(identifier, variableName))
  {
  }

  /** The default configuration passes the run's validity check. */
  lemma DefaultConfigRunnable()
    ensures Runnable(DefaultConfig())
  {
    assert DefaultConfig().languages[0] == "de";
  }

  /** With the default table, `{userId:Mention}` becomes a `Long` rendered as `"<@$userId>"`. */
  lemma MentionExample()
    ensures Build(DefaultConfig(), "userId", "Mention") == Ok(ArgumentData("Long", "userId", "\"<@$userId>\""))
  {
    var c := DefaultConfig();
    assert "Mention" in c.customClasses && c.customClasses["Mention"] == CustomArgumentType("Long", "<@{var}>");
    assert "<@" + VariableMarker + ">" == "<@{var}>";
    ReplaceOnce("<@", VariableMarker, ">", "$userId");
    MentionText();
  }

  /** The pieces of the mention example's text, joined. */
  lemma MentionText()
    ensures "$" + "userId" == "$userId"
    ensures "\"" + ("<@" + "$userId" + ">") + "\"" == "\"<@$userId>\""
  {
    assert "<@" + "$userId" + ">" == "<@$userId>";
  }

  /** A custom template that never mentions `{var}` renders as the quoted template. */
  lemma TemplateWithoutMarker(config: Config, variableName: string, identifier: string)
    requires identifier in config.customClasses
    requires !ContainsSub(config.customClasses[identifier].formatStringTemplate, VariableMarker)
    ensures Build(config, variableName, identifier).Ok?
    ensures Build(config, variableName, identifier).value.formattedString
         == "\"" + config.customClasses[identifier].formatStringTemplate + "\""
  {
    ReplaceAllAbsent(config.customClasses[identifier].formatStringTemplate, VariableMarker, "$" + variableName);
  }
}
