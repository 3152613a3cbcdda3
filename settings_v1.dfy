/**
 * The version-1 settings schema (settings/versions/v1/v1.ts): the shape of the
 * settings record, the refinements the schema adds on top of field types (the
 * trigger rule, the system-message length, the ignored tags and the ignored
 * file patterns) and the default settings.
 *
 * `isRegexValid` and `isValidIgnorePattern` live in a utilities module that is
 * not part of this model; they are parameters here.
 */
module SettingsV1 {
  import opened JsStrings

  /** A completion trigger: `type` is `"string"` or `"regex"`. */
  datatype Trigger = Trigger(kind: string, value: string)

  datatype OllamaApiSettings = OllamaApiSettings(host: string, model: string)

  /** The settings record, without the floating-point model options. */
  datatype Settings = Settings(
    version: string,
    enabled: bool,
    advancedMode: bool,
    apiProvider: string,
    ollamaApiSettings: OllamaApiSettings,
    triggers: seq<Trigger>,
    delay: int,
    systemMessage: string,
    dontIncludeDataviews: bool,
    maxPrefixCharLimit: int,
    maxSuffixCharLimit: int,
    removeDuplicateMathBlockIndicator: bool,
    removeDuplicateCodeBlockIndicator: bool,
    ignoredFilePatterns: string,
    ignoredTags: string,
    cacheSuggestions: bool,
    debugMode: bool)

  // ---------------------------------------------------------------------------
  // Triggers
  // ---------------------------------------------------------------------------

  const RegexMustEndWithDollar := "Regex triggers must end with a $."

  function InvalidRegexMessage(value: string): string
  {
    "Invalid regex: \"" + value + "\""
  }

  /** The issues `triggerSchema`'s `superRefine` adds, in the order it adds them. */
  function TriggerRefinementIssues(t: Trigger, isRegexValid: string -> bool): (issues: seq<string>)
    ensures t.kind != "regex" ==> issues == []
    ensures |issues| <= 2
  {
    if t.kind == "regex" then
      (if !EndsWith(t.value, "$") then [RegexMustEndWithDollar] else [])
      + (if !isRegexValid(t.value) then [InvalidRegexMessage(t.value)] else [])
    else []
  }

  /** A trigger passes `triggerSchema`: a known type, a value of at least one UTF-16 unit, no refinement issue. */
  predicate TriggerValid(t: Trigger, isRegexValid: string -> bool)
  {
    (t.kind == "string" || t.kind == "regex")
    && Utf16Length(t.value) >= 1
    && TriggerRefinementIssues(t, isRegexValid) == []
  }

  /**
   * The trigger rule: a string trigger needs a non-empty value, a regex trigger
   * a non-empty value that ends with `$` and that `isRegexValid` accepts.
   */
  lemma TriggerRule(t: Trigger, isRegexValid: string -> bool)
    ensures TriggerValid(t, isRegexValid) <==>
      (t.kind == "string" && t.value != [])
      || (t.kind == "regex" && t.value != [] && EndsWith(t.value, "$") && isRegexValid(t.value))
  {
    var issues := TriggerRefinementIssues(t, isRegexValid);
    if t.kind == "regex" && (!EndsWith(t.value, "$") || !isRegexValid(t.value)) {
      assert |issues| >= 1;
    }
  }

  /** A regex trigger can collect both issues at once: the refinement does not stop at the first. */
  lemma RegexTriggerIssues(t: Trigger, isRegexValid: string -> bool)
    requires t.kind == "regex"
    ensures |TriggerRefinementIssues(t, isRegexValid)|
         == (if EndsWith(t.value, "$") then 0 else 1) + (if isRegexValid(t.value) then 0 else 1)
  {
  }

  // ---------------------------------------------------------------------------
  // Text fields
  // ---------------------------------------------------------------------------

  /** `systemMessage: z.string().min(3)`: at least three UTF-16 code units. */
  predicate SystemMessageValid(m: string)
  {
    Utf16Length(m) >= 3
  }

  /** Three characters always suffice; a single character never does. */
  lemma SystemMessageBounds(m: string)
    ensures |m| >= 3 ==> SystemMessageValid(m)
    ensures |m| <= 1 ==> !SystemMessageValid(m)
  {
  }

  /** `lines.filter(s => s.includes(c))` */
  function LinesContaining(lines: seq<string>, c: char): (r: seq<string>)
    ensures |r| <= |lines|
    ensures forall k :: 0 <= k < |r| ==> c in r[k]
  {
    if lines == [] then []
    else (if c in lines[0] then [lines[0]] else []) + LinesContaining(lines[1..], c)
  }

  /** The filter is empty exactly when no line contains `c`. */
  lemma {:induction false} LinesContainingEmpty(lines: seq<string>, c: char)
    ensures LinesContaining(lines, c) == [] <==> !InSomeOf(lines, c)
    decreases |lines|
  {
    if lines != [] {
      LinesContainingEmpty(lines[1..], c);
      InSomeOfCons(lines[0], lines[1..], c);
      assert lines == [lines[0]] + lines[1..];
    }
  }

  const TagsWithSpaces := "Tags cannot contain spaces"
  const TagsWithHash := "Enter tags without the # symbol"
  const TagsWithCommas := "Enter each tag on a new line without commas"

  /** The issues of the three `ignoredTags` refinements, each of which runs. */
  function IgnoredTagsIssues(value: string): (issues: seq<string>)
    ensures |issues| <= 3
  {
    var lines := SplitLines(value);
    (if |LinesContaining(lines, ' ')| != 0 then [TagsWithSpaces] else [])
    + (if |LinesContaining(lines, '#')| != 0 then [TagsWithHash] else [])
    + (if |LinesContaining(lines, ',')| != 0 then [TagsWithCommas] else [])
  }

  /** The ignored tags are valid exactly when the whole text has no space, no `#` and no `,`. */
  lemma IgnoredTagsRule(value: string)
    ensures IgnoredTagsIssues(value) == [] <==> ' ' !in value && '#' !in value && ',' !in value
  {
    var lines := SplitLines(value);
    LinesContainingEmpty(lines, ' ');
    LinesContainingEmpty(lines, '#');
    LinesContainingEmpty(lines, ',');
    InSomeLine(value, ' ');
    InSomeLine(value, '#');
    InSomeLine(value, ',');
  }

  /** `lines.filter(s => s.trim().length > 0)` */
  function NonBlankLines(lines: seq<string>): (r: seq<string>)
    ensures |r| <= |lines|
    ensures forall k :: 0 <= k < |r| ==> |Trim(r[k])| > 0
  {
    if lines == [] then []
    else (if |Trim(lines[0])| > 0 then [lines[0]] else []) + NonBlankLines(lines[1..])
  }

  /** `lines.filter(s => !isValidIgnorePattern(s))` */
  function InvalidPatterns(lines: seq<string>, isValidIgnorePattern: string -> bool): (r: seq<string>)
    ensures |r| <= |lines|
    ensures forall k :: 0 <= k < |r| ==> !isValidIgnorePattern(r[k])
  {
    if lines == [] then []
    else (if !isValidIgnorePattern(lines[0]) then [lines[0]] else []) + InvalidPatterns(lines[1..], isValidIgnorePattern)
  }

  /** The `ignoredFilePatterns` refinement: no non-blank line is an invalid pattern. */
  predicate IgnoredFilePatternsValid(value: string, isValidIgnorePattern: string -> bool)
  {
    |InvalidPatterns(NonBlankLines(SplitLines(value)), isValidIgnorePattern)| == 0
  }

  /** Every line passes: it is all whitespace, or the validator accepts it as written, untrimmed. */
  predicate EveryLineBlankOrValid(lines: seq<string>, isValidIgnorePattern: string -> bool)
  {
    forall k :: 0 <= k < |lines| ==> IsBlank(lines[k]) || isValidIgnorePattern(lines[k])
  }

  lemma {:induction false} FilterPatternsRule(lines: seq<string>, isValidIgnorePattern: string -> bool)
    ensures |InvalidPatterns(NonBlankLines(lines), isValidIgnorePattern)| == 0
        <==> EveryLineBlankOrValid(lines, isValidIgnorePattern)
    decreases |lines|
  {
    if lines != [] {
      FilterPatternsRule(lines[1..], isValidIgnorePattern);
      FilterPatternsHead(lines, isValidIgnorePattern);
      EveryLineCons(lines, isValidIgnorePattern);
    }
  }

  /** The filters keep no invalid pattern exactly when the first line passes and the rest keep none. */
  lemma FilterPatternsHead(lines: seq<string>, isValidIgnorePattern: string -> bool)
    requires lines != []
    ensures |InvalidPatterns(NonBlankLines(lines), isValidIgnorePattern)| == 0
        <==> (IsBlank(lines[0]) || isValidIgnorePattern(lines[0]))
             && |InvalidPatterns(NonBlankLines(lines[1..]), isValidIgnorePattern)| == 0
  {
    TrimEmptyIffBlank(lines[0]);
    var kept := if |Trim(lines[0])| > 0 then [lines[0]] else [];
    assert NonBlankLines(lines) == kept + NonBlankLines(lines[1..]);
    InvalidPatternsAppend(kept, NonBlankLines(lines[1..]), isValidIgnorePattern);
  }

  lemma EveryLineCons(lines: seq<string>, isValidIgnorePattern: string -> bool)
    requires lines != []
    ensures EveryLineBlankOrValid(lines, isValidIgnorePattern)
        <==> (IsBlank(lines[0]) || isValidIgnorePattern(lines[0])) && EveryLineBlankOrValid(lines[1..], isValidIgnorePattern)
  {
    var rest := lines[1..];
    assert forall k :: 0 <= k < |rest| ==> rest[k] == lines[k + 1];
    if (IsBlank(lines[0]) || isValidIgnorePattern(lines[0])) && EveryLineBlankOrValid(rest, isValidIgnorePattern) {
      forall k | 0 <= k < |lines| ensures IsBlank(lines[k]) || isValidIgnorePattern(lines[k]) {
        if k > 0 {
          assert lines[k] == rest[k - 1];
        }
      }
    }
  }


  lemma {:induction false} InvalidPatternsAppend(a: seq<string>, b: seq<string>, isValidIgnorePattern: string -> bool)
    ensures InvalidPatterns(a + b, isValidIgnorePattern) == InvalidPatterns(a, isValidIgnorePattern) + InvalidPatterns(b, isValidIgnorePattern)
    decreases |a|
  {
    if a == [] {
      assert a + b == b;
    } else {
      assert (a + b)[0] == a[0];
      assert (a + b)[1..] == a[1..] + b;
      InvalidPatternsAppend(a[1..], b, isValidIgnorePattern);
    }
  }

  /** The ignored file patterns are valid exactly when every line is blank or a valid pattern. */
  lemma IgnoredFilePatternsRule(value: string, isValidIgnorePattern: string -> bool)
    ensures IgnoredFilePatternsValid(value, isValidIgnorePattern)
        <==> EveryLineBlankOrValid(SplitLines(value), isValidIgnorePattern)
  {
    FilterPatternsRule(SplitLines(value), isValidIgnorePattern);
  }

  /** The refinements the schema places on a settings record, beside its field types. */
  predicate RefinementsHold(s: Settings, isRegexValid: string -> bool, isValidIgnorePattern: string -> bool)
  {
    (forall k :: 0 <= k < |s.triggers| ==> TriggerValid(s.triggers[k], isRegexValid))
    && SystemMessageValid(s.systemMessage)
    && IgnoredFilePatternsValid(s.ignoredFilePatterns, isValidIgnorePattern)
    && IgnoredTagsIssues(s.ignoredTags) == []
  }

  // ---------------------------------------------------------------------------
  // Defaults
  // ---------------------------------------------------------------------------

  const DefaultTriggers: seq<Trigger> := [
    Trigger("string", "# "),
    Trigger("string", ". "),
    Trigger("string", ": "),
    Trigger("string", ", "),
    Trigger("string", "! "),
    Trigger("string", "? "),
    Trigger("string", "`"),
    Trigger("string", "' "),
    Trigger("string", "= "),
    Trigger("string", "$ "),
    Trigger("string", "> "),
    Trigger("string", "\n"),
    // bullet list
    Trigger("regex", "[\\t ]*(\\-|\\*)[\\t ]+$"),
    // numbered list
    Trigger("regex", "[\\t ]*[0-9A-Za-z]+\\.[\\t ]+$"),
    // new line with spaces
    Trigger("regex", "\\$\\$\\n[\\t ]*$"),
    // markdown multiline code block
    Trigger("regex", "```[a-zA-Z0-9]*(\\n\\s*)?$"),
    // task list normal, sub or numbered
    Trigger("regex", "\\s*(-|[0-9]+\\.) \\[.\\]\\s+$")
  ]

  const DefaultSystemMessage := "Your job is to complete text inside a markdown file.\n"
    + "Your text can be code, LaTex math surrounded by $ and $$ characters, a single word, or multiple sentences. "
    + "Your answer must be in the same language as the text."

  const DefaultSettings: Settings := Settings(
    "1", true, false, "ollama",
    OllamaApiSettings("localhost:11434", ""),
    DefaultTriggers,
    500,
    DefaultSystemMessage,
    true, 4000, 4000,
    true, true,
    "**/secret/**\n", "",
    true, false)

  /** Every default trigger is a string or regex trigger with a value, and every regex one ends with `$`. */
  lemma DefaultTriggersWellFormed()
    ensures forall k :: 0 <= k < |DefaultTriggers| ==>
      var t := DefaultTriggers[k];
      (t.kind == "string" || t.kind == "regex") && t.value != []
      && (t.kind == "regex" ==> EndsWith(t.value, "$"))
  {
    forall k | 0 <= k < |DefaultTriggers|
      ensures var t := DefaultTriggers[k];
        (t.kind == "string" || t.kind == "regex") && t.value != []
        && (t.kind == "regex" ==> EndsWith(t.value, "$"))
    {
      var t := DefaultTriggers[k];
      if t.kind == "regex" {
        var v := t.value;
        assert v[|v| - 1] == '$';
        assert v[|v| - 1..] == "$";
      }
    }
  }

  /**
   * The defaults meet every refinement, given that the host's regular
   * expression engine accepts the five default patterns and the glob helper
   * accepts the default ignore pattern.
   */
  lemma DefaultSettingsValid(isRegexValid: string -> bool, isValidIgnorePattern: string -> bool)
    requires forall k :: 12 <= k < |DefaultTriggers| ==> isRegexValid(DefaultTriggers[k].value)
    requires isValidIgnorePattern("**/secret/**")
    ensures RefinementsHold(DefaultSettings, isRegexValid, isValidIgnorePattern)
  {
    DefaultTriggersValid(isRegexValid);
    assert |DefaultSystemMessage| >= 3;
    SystemMessageBounds(DefaultSystemMessage);
    var pattern := "**/secret/**";
    assert '\n' !in pattern;
    OnePatternValid(pattern, isValidIgnorePattern);
    assert pattern + "\n" == DefaultSettings.ignoredFilePatterns;
    IgnoredTagsRule("");
  }

  lemma DefaultTriggersValid(isRegexValid: string -> bool)
    requires forall k :: 12 <= k < |DefaultTriggers| ==> isRegexValid(DefaultTriggers[k].value)
    ensures forall k :: 0 <= k < |DefaultTriggers| ==> TriggerValid(DefaultTriggers[k], isRegexValid)
  {
    DefaultTriggersWellFormed();
    forall k | 0 <= k < |DefaultTriggers| ensures TriggerValid(DefaultTriggers[k], isRegexValid) {
      TriggerRule(DefaultTriggers[k], isRegexValid);
    }
  }

  /** A single line followed by a newline splits into that line and an empty one. */
  lemma {:induction false} SplitOneLine(x: string)
    requires '\n' !in x
    ensures SplitLines(x + "\n") == [x, ""]
    decreases |x|
  {
    if x == [] {
      assert (x + "\n")[1..] == [];
    } else {
      assert (x + "\n")[1..] == x[1..] + "\n";
      SplitOneLine(x[1..]);
      assert [x[0]] + x[1..] == x;
    }
  }

  /** One pattern on its own line passes when the validator accepts it. */
  lemma OnePatternValid(x: string, isValidIgnorePattern: string -> bool)
    requires '\n' !in x && isValidIgnorePattern(x)
    ensures IgnoredFilePatternsValid(x + "\n", isValidIgnorePattern)
  {
    SplitOneLine(x);
    var lines := SplitLines(x + "\n");
    assert IsBlank(lines[1]);
    assert EveryLineBlankOrValid(lines, isValidIgnorePattern);
    IgnoredFilePatternsRule(x + "\n", isValidIgnorePattern);
  }
}
