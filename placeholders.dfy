/**
 * Placeholders in a message line. A placeholder is `{name}`, `{name:Type}` or
 * `{name:}`, where `name` and `Type` are runs of ASCII word characters; a
 * missing type means `String`. Parsing finds every placeholder from left to
 * right without overlap and resolves its type through the configuration;
 * substitution rewrites each placeholder into a Kotlin string-template
 * expression `${…}`.
 */
module Placeholders {
  import opened Outcomes
  import opened KotlinText
  import opened OrderedMaps
  import opened Configs

  /** The regular-expression class `\w`: ASCII letters, digits and `_`. */
  predicate IsWordChar(c: char) {
    ('a' <= c <= 'z') || ('A' <= c <= 'Z') || ('0' <= c <= '9') || c == '_'
  }

  predicate AllWordChars(s: string) {
    forall k :: 0 <= k < |s| ==> IsWordChar(s[k])
  }

  /** One match of the placeholder pattern: group 1 is `name`, group 2 is `typeName`. */
  datatype Token = Token(name: string, hasColon: bool, typeName: string)

  /** Tokens the pattern can produce. */
  predicate ValidToken(t: Token) {
    && t.name != [] && AllWordChars(t.name) && AllWordChars(t.typeName)
    && (!t.hasColon ==> t.typeName == [])
  }

  /** The matched text (group 0). */
  function Text(t: Token): (r: string)
    ensures |r| >= 2 && r[0] == '{'
  {
    "{" + t.name + (if t.hasColon then ":" + t.typeName else "") + "}"
  }

  /** The type identifier handed to the configuration: an empty group 2 means `String`. */
  function TypeIdentifier(t: Token): string {
    if t.typeName == [] then "String" else t.typeName
  }

  /**
   * The pattern after `{`, with the word characters of group 1 read so far in
   * `name`: group 1 takes the whole word run; then either `}` closes the match,
   * or `:` starts group 2. Backtracking into a shorter run never yields another
   * match, because the character after a shortened run is a word character.
   */
  function MatchName(s: string, name: string): (r: Option<Token>)
    ensures r.Some? ==> |Text(r.value)| <= |s| + |name| + 1
    decreases |s|
  {
    if s != [] && IsWordChar(s[0]) then MatchName(s[1..], name + [s[0]])
    else if name == [] || s == [] then None
    else if s[0] == '}' then Some(Token(name, false, ""))
    else if s[0] == ':' then MatchType(s[1..], name, [])
    else None
  }

  /** The pattern after `:`, with the word characters of group 2 read so far in `typeName`; `}` closes the match. */
  function MatchType(s: string, name: string, typeName: string): (r: Option<Token>)
    ensures r.Some? ==> |Text(r.value)| <= |s| + |name| + |typeName| + 2
    decreases |s|
  {
    if s != [] && IsWordChar(s[0]) then MatchType(s[1..], name, typeName + [s[0]])
    else if s != [] && s[0] == '}' then Some(Token(name, true, typeName))
    else None
  }

  /** The match of the pattern that starts at the first character of `s`, if any. */
  function MatchPrefix(s: string): (r: Option<Token>)
    ensures r.Some? ==> |Text(r.value)| <= |s|
  {
    if s == [] || s[0] != '{' then None else MatchName(s[1..], [])
  }

  /** `findAll`: the matches in `s` from left to right, resuming after each match. */
  function Scan(s: string): seq<Token>
    decreases |s|
  {
    if s == [] then []
    else match MatchPrefix(s)
      case Some(t) => [t] + Scan(s[|Text(t)|..])
      case None => Scan(s[1..])
  }

  /** A match in group 2 is a placeholder whose text starts with what was read, then the rest of `s`. */
  lemma {:induction false} MatchTypeSound(s: string, name: string, typeName: string)
    requires name != [] && AllWordChars(name) && AllWordChars(typeName)
    requires MatchType(s, name, typeName).Some?
    ensures var t := MatchType(s, name, typeName).value;
      ValidToken(t) && Text(t) <= "{" + name + (":" + typeName) + s
    decreases |s|
  {
    var t := MatchType(s, name, typeName).value;
    if IsWordChar(s[0]) {
      MatchTypeSound(s[1..], name, typeName + [s[0]]);
      assert name + (":" + (typeName + [s[0]])) + s[1..] == name + (":" + typeName) + s;
    } else {
      assert Text(t) == "{" + name + (":" + typeName) + "}";
    }
  }

  /** A match in group 1 is a placeholder whose text starts with what was read, then the rest of `s`. */
  lemma {:induction false} MatchNameSound(s: string, name: string)
    requires AllWordChars(name)
    requires MatchName(s, name).Some?
    ensures var t := MatchName(s, name).value;
      ValidToken(t) && Text(t) <= "{" + name + s
    decreases |s|
  {
    var t := MatchName(s, name).value;
    if IsWordChar(s[0]) {
      MatchNameSound(s[1..], name + [s[0]]);
      assert "{" + (name + [s[0]]) + s[1..] == "{" + name + s;
    } else if s[0] == '}' {
      assert Text(t) == "{" + name + "}";
    } else {
      MatchTypeSound(s[1..], name, []);
      assert "{" + name + (":" + []) + s[1..] == "{" + name + s;
    }
  }

  /** A match is a placeholder the pattern can produce, and its text starts `s`. */
  lemma MatchPrefixSound(s: string)
    requires MatchPrefix(s).Some?
    ensures ValidToken(MatchPrefix(s).value) && Text(MatchPrefix(s).value) <= s
  {
    MatchNameSound(s[1..], []);
    assert "{" + [] + s[1..] == s;
  }

  /** Every match found is a placeholder the pattern can produce, and its text occurs in `s`. */
  lemma {:induction false} ScanValid(s: string)
    ensures forall j :: 0 <= j < |Scan(s)| ==> ValidToken(Scan(s)[j]) && ContainsSub(s, Text(Scan(s)[j]))
    decreases |s|
  {
    if s != [] {
      match MatchPrefix(s)
      case Some(t) =>
        MatchPrefixSound(s);
        ScanValid(s[|Text(t)|..]);
        forall j | 0 <= j < |Scan(s)| ensures ValidToken(Scan(s)[j]) && ContainsSub(s, Text(Scan(s)[j])) {
          if j > 0 {
            assert Scan(s)[j] == Scan(s[|Text(t)|..])[j - 1];
            ContainsSubSuffix(s, |Text(t)|, Text(Scan(s)[j]));
          }
        }
      case None =>
        ScanValid(s[1..]);
        forall j | 0 <= j < |Scan(s)| ensures ContainsSub(s, Text(Scan(s)[j])) {
          ContainsSubSuffix(s, 1, Text(Scan(s)[j]));
        }
    }
  }

  /** Word characters are read into group 1 one by one. */
  lemma {:induction false} MatchNameRun(w: string, s: string, name: string)
    requires AllWordChars(w)
    ensures MatchName(w + s, name) == MatchName(s, name + w)
    decreases |w|
  {
    if w == [] {
      assert w + s == s && name + w == name;
    } else {
      assert (w + s)[0] == w[0] && (w + s)[1..] == w[1..] + s;
      MatchNameRun(w[1..], s, name + [w[0]]);
      assert name + [w[0]] + w[1..] == name + w;
    }
  }

  /** Word characters are read into group 2 one by one. */
  lemma {:induction false} MatchTypeRun(w: string, s: string, name: string, typeName: string)
    requires AllWordChars(w)
    ensures MatchType(w + s, name, typeName) == MatchType(s, name, typeName + w)
    decreases |w|
  {
    if w == [] {
      assert w + s == s && typeName + w == typeName;
    } else {
      assert (w + s)[0] == w[0] && (w + s)[1..] == w[1..] + s;
      MatchTypeRun(w[1..], s, name, typeName + [w[0]]);
      assert typeName + [w[0]] + w[1..] == typeName + w;
    }
  }

  /** After group 1, `:`, group 2 and `}` close the match. */
  lemma MatchAfterName(t: Token, rest: string)
    requires ValidToken(t) && t.hasColon
    ensures MatchName(":" + (t.typeName + ("}" + rest)), t.name) == Some(t)
  {
    var tail := "}" + rest;
    assert MatchName(":" + (t.typeName + tail), t.name) == MatchType(t.typeName + tail, t.name, []);
    MatchTypeRun(t.typeName, tail, t.name, []);
    assert [] + t.typeName == t.typeName;
  }

  /** A placeholder's text followed by more text, regrouped around its name. */
  lemma TextSplit(t: Token, rest: string)
    ensures Text(t) + rest ==
      "{" + (t.name + (if t.hasColon then ":" + (t.typeName + ("}" + rest)) else "}" + rest))
  {
    if t.hasColon {
      AppendAssoc("{" + t.name + (":" + t.typeName), "}", rest);
      AppendAssoc("{" + t.name, ":" + t.typeName, "}" + rest);
      AppendAssoc(":", t.typeName, "}" + rest);
      AppendAssoc("{", t.name, ":" + (t.typeName + ("}" + rest)));
    } else {
      assert Text(t) == "{" + t.name + "}";
      AppendAssoc("{" + t.name, "}", rest);
      AppendAssoc("{", t.name, "}" + rest);
    }
  }

  /** Every valid token is recognised at the start of its own text, whatever follows. */
  lemma MatchText(t: Token, rest: string)
    requires ValidToken(t)
    ensures MatchPrefix(Text(t) + rest) == Some(t)
  {
    var tail := "}" + rest;
    var afterName := if t.hasColon then ":" + (t.typeName + tail) else tail;
    TextSplit(t, rest);
    assert ("{" + (t.name + afterName))[1..] == t.name + afterName;
    MatchNameRun(t.name, afterName, []);
    assert [] + t.name == t.name;
    if t.hasColon {
      MatchAfterName(t, rest);
    }
  }

  /** Scanning resumes right after a placeholder. */
  lemma ScanToken(t: Token, rest: string)
    requires ValidToken(t)
    ensures Scan(Text(t) + rest) == [t] + Scan(rest)
  {
    MatchText(t, rest);
    assert (Text(t) + rest)[|Text(t)|..] == rest;
  }

  /** Text without `{` holds no placeholder and is skipped. */
  lemma {:induction false} ScanPlain(p: string, rest: string)
    requires '{' !in p
    ensures Scan(p + rest) == Scan(rest)
    decreases |p|
  {
    if p != [] {
      assert (p + rest)[0] == p[0] && (p + rest)[1..] == p[1..] + rest;
      ScanPlain(p[1..], rest);
    } else {
      assert p + rest == rest;
    }
  }

  /** A line without `{` has no placeholder. */
  lemma NoBraceNoTokens(s: string)
    requires '{' !in s
    ensures Scan(s) == []
  {
    ScanPlain(s, []);
    assert s + [] == s;
  }

  /** A line built from literal pieces without `{` and placeholders, in order. */
  function Render(parts: seq<(string, Token)>, tail: string): string {
    if parts == [] then tail else parts[0].0 + Text(parts[0].1) + Render(parts[1..], tail)
  }

  function TokensOf(parts: seq<(string, Token)>): (r: seq<Token>)
    ensures |r| == |parts| && forall j :: 0 <= j < |r| ==> r[j] == parts[j].1
  {
    seq(|parts|, j requires 0 <= j < |parts| => parts[j].1)
  }

  /** Scanning a rendered line gives back exactly its placeholders, in order. */
  lemma {:induction false} ScanRender(parts: seq<(string, Token)>, tail: string)
    requires forall j :: 0 <= j < |parts| ==> '{' !in parts[j].0 && ValidToken(parts[j].1)
    requires '{' !in tail
    ensures Scan(Render(parts, tail)) == TokensOf(parts)
  {
    if parts == [] {
      NoBraceNoTokens(tail);
    } else {
      var rest := Render(parts[1..], tail);
      assert parts[0].0 + Text(parts[0].1) + rest == parts[0].0 + (Text(parts[0].1) + rest);
      ScanPlain(parts[0].0, Text(parts[0].1) + rest);
      ScanToken(parts[0].1, rest);
      ScanRender(parts[1..], tail);
      assert TokensOf(parts) == [parts[0].1] + TokensOf(parts[1..]);
    }
  }

  // ---------------------------------------------------------------------------
  // parseArgumentsFromLine

  function Texts(tokens: seq<Token>): (r: seq<string>)
    ensures |r| == |tokens| && forall j :: 0 <= j < |r| ==> r[j] == Text(tokens[j])
  {
    seq(|tokens|, j requires 0 <= j < |tokens| => Text(tokens[j]))
  }

  /** The configuration's resolution of one placeholder. */
  function Resolve(config: Config, t: Token): Result<ArgumentData> {
    Build(config, t.name, TypeIdentifier(t))
  }

  /**
   * The placeholders paired with their resolutions, in order; the first
   * placeholder whose type the configuration does not know aborts.
   */
  function Builds(config: Config, tokens: seq<Token>): Result<seq<(string, ArgumentData)>>
  {
    if tokens == [] then Ok([])
    else match Resolve(config, tokens[0])
      case Err(e) => Err(e)
      case Ok(d) =>
        match Builds(config, tokens[1..])
        case Err(e) => Err(e)
        case Ok(rest) => Ok([(Text(tokens[0]), d)] + rest)
  }

  /**
   * Resolution succeeds exactly when every placeholder resolves, and then pairs
   * each placeholder's text with its resolution.
   */
  lemma {:induction false} BuildsOk(config: Config, tokens: seq<Token>)
    ensures var r := Builds(config, tokens);
      && (r.Ok? <==> forall j :: 0 <= j < |tokens| ==> Resolve(config, tokens[j]).Ok?)
      && (r.Ok? ==> |r.value| == |tokens| && forall j :: 0 <= j < |tokens| ==>
            r.value[j] == (Text(tokens[j]), Resolve(config, tokens[j]).value))
  {
    if tokens != [] {
      BuildsOk(config, tokens[1..]);
      assert forall j :: 1 <= j < |tokens| ==> tokens[j] == tokens[1..][j - 1];
    }
  }

  /** `err` is the error of the first of `tokens` that does not resolve. */
  ghost predicate FirstUnresolved(config: Config, tokens: seq<Token>, err: Error) {
    exists j ::
      && 0 <= j < |tokens|
      && (forall l :: 0 <= l < j ==> Resolve(config, tokens[l]).Ok?)
      && Resolve(config, tokens[j]) == Err(err)
  }

  /** A failed resolution reports the first placeholder that does not resolve. */
  lemma {:induction false} BuildsErr(config: Config, tokens: seq<Token>)
    requires Builds(config, tokens).Err?
    ensures FirstUnresolved(config, tokens, Builds(config, tokens).error)
  {
    var err := Builds(config, tokens).error;
    if Resolve(config, tokens[0]).Ok? {
      var rest := tokens[1..];
      assert Builds(config, rest) == Err(err);
      BuildsErr(config, rest);
      var j :| 0 <= j < |rest|
        && (forall l :: 0 <= l < j ==> Resolve(config, rest[l]).Ok?)
        && Resolve(config, rest[j]) == Err(err);
      assert tokens[j + 1] == rest[j];
      forall l | 0 <= l < j + 1 ensures Resolve(config, tokens[l]).Ok? {
        if l > 0 {
          assert tokens[l] == rest[l - 1];
        }
      }
    } else {
      assert Resolve(config, tokens[0]) == Err(err);
    }
  }

  /**
   * `parseArgumentsFromLine`: every match keyed by its text, in order, with its
   * resolution; the run fails if the line holds the same placeholder twice,
   * because the map then has fewer entries than there are matches.
   */
  function ParseArguments(config: Config, line: string): (r: Result<OMap<string, ArgumentData>>)
    ensures r.Ok? ==> Valid(r.value)
  {
    var tokens := Scan(line);
    match Builds(config, tokens)
    case Err(e) => Err(e)
    case Ok(pairs) =>
      PutItemsValid(Empty(), pairs);
      var m := PutItems(Empty(), pairs);
      if |m.keys| != |tokens| then Err(ArgumentParseMismatch(line, |m.keys|, |tokens|)) else Ok(m)
  }

  /**
   * The outcome of parsing: it succeeds exactly when every placeholder's type is
   * known and no placeholder text repeats; the map then lists the placeholder
   * texts in order, each with its resolution. An unknown type is reported for
   * the first placeholder that has one; otherwise a repetition is reported with
   * the number of distinct texts and the number of matches.
   */
  lemma ParseArgumentsSpec(config: Config, line: string)
    ensures var tokens := Scan(line);
      var r := ParseArguments(config, line);
      && (r.Ok? <==> (forall j :: 0 <= j < |tokens| ==> Resolve(config, tokens[j]).Ok?) && Distinct(Texts(tokens)))
      && (r.Ok? ==>
            && Valid(r.value) && r.value.keys == Texts(tokens)
            && forall j :: 0 <= j < |tokens| ==> r.value.values[Text(tokens[j])] == Resolve(config, tokens[j]).value)
      && (Builds(config, tokens).Err? ==> r == Err(Builds(config, tokens).error))
      && (Builds(config, tokens).Ok? && !Distinct(Texts(tokens)) ==>
            r == Err(ArgumentParseMismatch(line, |Dedup({}, Texts(tokens))|, |tokens|)))
  {
    var tokens := Scan(line);
    var b := Builds(config, tokens);
    BuildsOk(config, tokens);
    if b.Ok? {
      var pairs := b.value;
      assert KeysOf(pairs) == Texts(tokens);
      PutItemsFresh(pairs);
    }
  }

  /** The map the merge compares between languages: placeholder text to Kotlin class. */
  function Signature(args: OMap<string, ArgumentData>): (r: map<string, string>)
    ensures r.Keys == args.values.Keys
    ensures forall k :: k in r ==> r[k] == args.values[k].kClassName
  {
    map k | k in args.values :: args.values[k].kClassName
  }

  // ---------------------------------------------------------------------------
  // replaceArgumentsInLine

  /** The Kotlin template expression that replaces a placeholder. */
  function Rendered(d: ArgumentData): string {
    "${" + d.formattedString + "}"
  }

  /** Each placeholder in turn replaced everywhere in the line by its expression. */
  function Substitute(line: string, args: seq<(string, ArgumentData)>): string
    decreases |args|
  {
    if args == [] then line else Substitute(ReplaceAll(line, args[0].0, Rendered(args[0].1)), args[1..])
  }

  /** `replaceArgumentsInLine`. */
  method ReplaceArgumentsInLine(line: string, arguments: OMap<string, ArgumentData>) returns (r: string)
    requires Valid(arguments)
    ensures r == Substitute(line, Items(arguments))
  {
    var items := Items(arguments);
    var result := line;
    var i := 0;
    while i < |items|
      invariant 0 <= i <= |items|
      invariant Substitute(result, items[i..]) == Substitute(line, items)
    {
      assert items[i..][1..] == items[i + 1..];
      result := ReplaceAll(result, items[i].0, Rendered(items[i].1));
      i := i + 1;
    }
    assert items[i..] == [];
    return result;
  }

  /** A line without `{` is left alone by placeholders that all start with `{`. */
  lemma {:induction false} SubstitutePlain(line: string, args: seq<(string, ArgumentData)>)
    requires '{' !in line
    requires forall j :: 0 <= j < |args| ==> args[j].0 != [] && args[j].0[0] == '{'
    ensures Substitute(line, args) == line
    decreases |args|
  {
    if args != [] {
      assert args[0].0[0] in args[0].0;
      AbsentCharNotContained(line, args[0].0, '{');
      ReplaceAllAbsent(line, args[0].0, Rendered(args[0].1));
      SubstitutePlain(line, args[1..]);
    }
  }

  /** Parsing then substituting a line with one placeholder turns it into its expression. */
  lemma SubstituteSingle(config: Config, a: string, t: Token, b: string)
    requires ValidToken(t) && '{' !in a && '{' !in b
    requires Resolve(config, t).Ok?
    ensures var line := a + Text(t) + b;
      && ParseArguments(config, line).Ok?
      && Substitute(line, Items(ParseArguments(config, line).value)) == a + Rendered(Resolve(config, t).value) + b
  {
    var line := a + Text(t) + b;
    ScanRender([(a, t)], b);
    assert Render([], b) == b;
    assert Render([(a, t)], b) == line;
    var tokens := Scan(line);
    assert tokens == [t];
    ParseArgumentsSpec(config, line);
    var m := ParseArguments(config, line).value;
    var items := Items(m);
    assert |items| == 1 && items[0] == (Text(t), Resolve(config, t).value);
    ReplaceOnce(a, Text(t), b, Rendered(Resolve(config, t).value));
    assert items[1..] == [];
  }
}
