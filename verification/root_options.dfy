/**
  The framework options carried as attributes of the document element. Only
  recognised attributes that are present produce a key; an absent attribute
  produces no key at all, leaving the default to the caller. Boolean options
  whose text is neither true nor false fall back to a per-option value.
 */
module RootOptions {
  import opened Xml
  import opened Configuration

  datatype OptionValue = Flag(flag: bool) | Setting(text: string)

  /** How an option is read: as a boolean with its fallback, or as text. */
  datatype OptionKind = BooleanOption(fallback: bool) | TextOption

  /** The recognised attributes and how each is read. */
  const RecognisedOptions: map<string, OptionKind> := map[
    "backupGlobals" := BooleanOption(false),
    "backupStaticAttributes" := BooleanOption(false),
    "bootstrap" := TextOption,
    "colors" := BooleanOption(false),
    "convertErrorsToExceptions" := BooleanOption(true),
    "convertNoticesToExceptions" := BooleanOption(true),
    "convertWarningsToExceptions" := BooleanOption(true),
    "processIsolation" := BooleanOption(false),
    "stopOnFailure" := BooleanOption(false),
    "testSuiteLoaderClass" := TextOption,
    "testSuiteLoaderFile" := TextOption,
    "verbose" := BooleanOption(false)
  ]

  const ConvertOptionNames: set<string> :=
    {"convertErrorsToExceptions", "convertNoticesToExceptions", "convertWarningsToExceptions"}

  function ReadOption(kind: OptionKind, text: string): OptionValue {
    match kind
    case BooleanOption(fallback) => Flag(GetBoolean(text, fallback))
    case TextOption => Setting(text)
  }

  /** The options of the document element `root`: exactly the recognised attributes that
      are present, booleans read with their fallback, text copied verbatim. */
  function GetPHPUnitConfiguration(root: Node): (r: map<string, OptionValue>)
    ensures forall k :: k in r <==> k in RecognisedOptions && HasAttribute(root, k)
    ensures forall k :: k in RecognisedOptions && HasAttribute(root, k) && RecognisedOptions[k].BooleanOption? ==>
      r[k] == Flag(GetBoolean(root.attrs[k], RecognisedOptions[k].fallback))
    ensures forall k :: k in RecognisedOptions && HasAttribute(root, k) && RecognisedOptions[k].TextOption? ==>
      r[k] == Setting(root.attrs[k])
  {
    map k | k in RecognisedOptions && HasAttribute(root, k) :: ReadOption(RecognisedOptions[k], root.attrs[k])
  }

  /** A document element without attributes yields no options at all. */
  lemma NoAttributesNoOptions(tag: string, children: seq<Node>)
    ensures GetPHPUnitConfiguration(Elem(tag, map[], children)) == map[]
  {
  }

  /** Among the boolean options, exactly the three convert options fall back to true. */
  lemma ConvertOptionsFallBackToTrue(k: string)
    requires k in RecognisedOptions && RecognisedOptions[k].BooleanOption?
    ensures RecognisedOptions[k].fallback <==> k in ConvertOptionNames
  {
  }

  /** A present boolean option whose text is neither true nor false reads as true for
      the three convert options and as false for every other boolean option. */
  lemma UnparseableFallback(root: Node, k: string)
    requires k in RecognisedOptions && RecognisedOptions[k].BooleanOption? && HasAttribute(root, k)
    requires !IsFalseWord(root.attrs[k]) && !IsTrueWord(root.attrs[k])
    ensures var r := GetPHPUnitConfiguration(root);
      k in r && r[k] == Flag(k in ConvertOptionNames)
  {
    ConvertOptionsFallBackToTrue(k);
  }
}
