# PHPUnit XML configuration reader, modelled in Dafny

This project models `PHPUnit_Util_Configuration`, the class that turns a
parsed `phpunit.xml` document into typed, defaulted settings. The settings cover:

- the coverage blacklist and whitelist;
- the included and excluded groups;
- the test listeners and their constructor arguments;
- the logging targets;
- the PHP `ini`, `const` and `var` settings;
- the framework options on the document element;
- the Selenium browser profiles;
- the tree of test suites.

The document is an immutable tree. `Xml.Node` is either an element (tag,
attribute map, ordered children) or character data. Every XPath query the
class issues is a fixed path of child tags, read from the document element
(`Xml.Query`). `getElementsByTagName` is a search of all descendants in
document order (`Xml.Descendants`). `nodeValue` is the text of all
descendants joined together (`Xml.TextContent`). An absent attribute reads as
the empty string, as in `DOMElement::getAttribute`.

Three collaborators are passed in as function parameters, so nothing about
them is assumed:

- `PHPUnit_Util_XML::xmlToVariable` is the `decode` argument of the listener reader.
- The `IncludePathTestCollector` directory walk is the `collect` argument of the suite builder.
- PHP's `(int)` cast of the Selenium `port` and `timeout` texts is the `toInt` argument.

A test suite is the plain datatype
`Suite(name: Option<string>, children: seq<Suite>, files: seq<string>)`.

Modules, one per part of the class:

- `Xml`: the document tree and its queries.
- `Strings`: ASCII lower-casing (`strtolower`).
- `Overwrite`: sequential writes into a PHP array.
- `Configuration`: `getBoolean`, the filter readers, groups, listeners and Selenium.
- `Logging`, `PhpSettings`, `RootOptions`, `TestSuites`: one section each.
- `PhpRuntime`: `handlePHPConfiguration`, applied to an explicit environment record.
- `Options`: the optional value.

The listener reader does not search a listener for an `arguments` child. It
reads arguments only when the listener's second child node (index 1) is an
`arguments` element. That holds exactly when one node of any kind comes before
that element: character data (usually the indentation whitespace), a comment,
or another element. `Configuration.ArgumentsMustBeSecondChild` states the
consequence: a compact `<listener><arguments>…</arguments></listener>` gets no
arguments.

## Model

| member | source | states |
|---|---|---|
| `Strings.ToLowerIsSpelling` | PHPUnit/Util/Configuration.php:688-692 | `strtolower(v) == w`, for a lower-case word `w`, holds exactly when `v` spells `w` with each letter in either case |
| `Configuration.GetBoolean` | PHPUnit/Util/Configuration.php:686-697 | false for "false" and true for "true" in any mix of cases; any other text gives the caller's default |
| `Configuration.GetBooleanUsesDefault` | PHPUnit/Util/Configuration.php:686-697 | the default matters exactly for texts that are neither word |
| `Xml.Query` | PHPUnit/Util/Configuration.php:222 | the empty path returns just the document element, and every node a non-empty child-tag path query returns is an element carrying the path's last tag |
| `Xml.QueryOne` | PHPUnit/Util/Configuration.php:222 | a one-tag query returns the document element's children with that tag, in document order and with repeats kept |
| `Xml.Step` | PHPUnit/Util/Configuration.php:235-266 | one path step returns exactly the children with the step's tag of the nodes it starts from |
| `Xml.StepOne` | PHPUnit/Util/Configuration.php:235-266 | a step from one parent returns exactly that parent's children with the tag, in their order and with their multiplicity |
| `Xml.StepAppend` | PHPUnit/Util/Configuration.php:235-266 | a path step keeps document order: the matching children of earlier parents come before those of later ones |
| `Xml.QueryStep` | PHPUnit/Util/Configuration.php:235-266 | a path one tag longer returns, in order, the children with that tag of every node the shorter path returns, and nothing else |
| `Xml.TaggedAppend` | PHPUnit/Util/Configuration.php:222 | selecting the children with a tag keeps their order and multiplicity: it distributes over concatenation |
| `Xml.TaggedOne` | PHPUnit/Util/Configuration.php:222 | a single child is selected exactly when it is an element with the tag |
| `Xml.TextContent` | PHPUnit/Util/Configuration.php:728 | the value of a character-data node is its text; an element without children has the empty value |
| `Xml.TextContentAppend` | PHPUnit/Util/Configuration.php:728 | an element's value is the value of its first children followed by the value of the rest, and an element with a single child has that child's value, so it joins all descendant text in document order |
| `Xml.Descendants` | PHPUnit/Util/Configuration.php:653-673 | the tag search below a node returns exactly the elements with that tag that lie strictly below it |
| `Xml.DescendantsOrder` | PHPUnit/Util/Configuration.php:653-673 | the tag search keeps document order: earlier children's matches come first, and a matching child comes before its own descendants |
| `Xml.Elements` | PHPUnit/Util/Configuration.php:318-322 | keeps exactly the element children and drops character data |
| `Xml.ElementsAppend` | PHPUnit/Util/Configuration.php:318-322 | keeping the element children preserves their order and multiplicity: it distributes over concatenation |
| `Xml.ElementsOne` | PHPUnit/Util/Configuration.php:318-322 | a single node is kept exactly when it is an element |
| `Configuration.DirectoryEntries` | PHPUnit/Util/Configuration.php:708-733 | one entry per element, in order; each entry's path is the element's text; prefix, suffix and group are verbatim when present and "", ".php" or "DEFAULT" when absent |
| `Configuration.ReadFilterDirectories` | PHPUnit/Util/Configuration.php:704-736 | the entries for a query: one per matched element in document order, none merged, with the same defaults |
| `Configuration.ReadFilterFiles` | PHPUnit/Util/Configuration.php:743-752 | one string per matched element, in order, each equal to that element's text |
| `Configuration.AddUncoveredFilesFromWhitelist` | PHPUnit/Util/Configuration.php:220-230 | false exactly when there is a single `filter/whitelist` element, it carries the attribute, and the attribute spells "false" in any case; true otherwise |
| `Configuration.GetFilterConfiguration` | PHPUnit/Util/Configuration.php:218-271 | each of the eight blacklist and whitelist lists is read from its own fixed path; the whitelist flag is as above |
| `Configuration.GetGroupConfiguration` | PHPUnit/Util/Configuration.php:279-295 | the included and excluded group names are the texts of the `group` elements, in order, duplicates kept |
| `Configuration.ListenerArguments` | PHPUnit/Util/Configuration.php:316-323 | arguments exist only when the second child node is an `arguments` element; they are then the decoded element children of that node, in order; otherwise there are none |
| `Configuration.GetListenerConfiguration` | PHPUnit/Util/Configuration.php:303-333 | one listener per `listeners/listener` element, in order; class is "" and file is "" when absent; arguments as above |
| `Configuration.ArgumentsMustBeSecondChild` | PHPUnit/Util/Configuration.php:316-317 | a listener whose first child is the `arguments` element, followed only by character data, gets no arguments |
| `Configuration.GetSeleniumBrowserConfiguration` | PHPUnit/Util/Configuration.php:571-607 | one profile per `selenium/browser` element, in order; name and browser are the attribute texts; host defaults to "localhost", port to 4444, timeout to 30000; present port and timeout go through the integer cast |
| `Overwrite.Overlay` | PHPUnit/Util/Configuration.php:344-390 | after writes applied in order, a key is present exactly when it was present before or some write sets it; its value is that of the last write to it, or unchanged when nothing writes it |
| `Logging.LogWrites` | PHPUnit/Util/Configuration.php:345-389 | one log element binds its type to its target, and also binds each extra attribute its type allows (six for coverage-html, one for junit) that it carries; it writes no other key |
| `Logging.LoggingOf` | PHPUnit/Util/Configuration.php:344-392 | the logging map holds a key exactly when some log element writes it, as its type or as one of its extra attributes |
| `Logging.GetLoggingConfiguration` | PHPUnit/Util/Configuration.php:340-393 | the logging map holds a key exactly when one of the `logging/log` elements writes it, as its type or as one of its extra attributes |
| `Logging.LastTargetWins` | PHPUnit/Util/Configuration.php:344-390 | a type's key holds the target of the last log element with that type, unless a later element writes that key as one of its own extra attributes |
| `Logging.ExtraAttributePersists` | PHPUnit/Util/Configuration.php:348-389 | an extra attribute written by an earlier element keeps its value unless a later element writes the same key |
| `Logging.TitleSurvivesLaterTarget` | PHPUnit/Util/Configuration.php:348-389 | two coverage-html logs, the first with a title: the target comes from the second, the title from the first |
| `Logging.UnrelatedAttributeKeepsTarget` | PHPUnit/Util/Configuration.php:380-389 | a later log of another type that merely carries an attribute named like an earlier type leaves that type's target in place |
| `PhpSettings.CoerceValue` | PHPUnit/Util/Configuration.php:420-426 | a `const` or `var` value becomes a boolean exactly when it spells true or false in any case, and the boolean is true only for true; any other value stays the same text |
| `PhpSettings.NamedValues` | PHPUnit/Util/Configuration.php:409-444 | a name is a key exactly when some element carries it; its value is the converted value of the last element with that name |
| `PhpSettings.GetPHPConfiguration` | PHPUnit/Util/Configuration.php:401-447 | `ini` values are kept as text; `const` and `var` values are converted; in each of the three maps the last element with a name wins, and the keys are exactly the names that occur |
| `PhpSettings.ConstTrueIsBoolean` | PHPUnit/Util/Configuration.php:416-428 | a constant whose last declaration has value "true" is stored as the boolean true |
| `RootOptions.GetPHPUnitConfiguration` | PHPUnit/Util/Configuration.php:483-563 | the keys are exactly the twelve recognised attributes present on the document element; boolean options are read with their fallback, text options are kept verbatim |
| `RootOptions.NoAttributesNoOptions` | PHPUnit/Util/Configuration.php:483-563 | a document element without attributes gives an empty map, not a map of defaults |
| `RootOptions.ConvertOptionsFallBackToTrue` | PHPUnit/Util/Configuration.php:512-531 | among the boolean options, exactly the three `convert*ToExceptions` options have the fallback true |
| `RootOptions.UnparseableFallback` | PHPUnit/Util/Configuration.php:487-560 | a present boolean option whose text is neither word reads as true for the convert options and as false for all others |
| `TestSuites.CollectAllAppend` | PHPUnit/Util/Configuration.php:653-671 | collecting the files of two runs of directories one after the other gives the two collections concatenated |
| `TestSuites.CollectAllOne` | PHPUnit/Util/Configuration.php:653-671 | one `directory` element contributes exactly the collector's result for its text, suffix (default "Test.php") and prefix (default empty), and nothing more |
| `TestSuites.DirectoryBlock` | PHPUnit/Util/Configuration.php:653-671 | the files the collector returns for the j-th directory sit as one contiguous block, right after the blocks of the earlier directories |
| `TestSuites.GetTestSuite` | PHPUnit/Util/Configuration.php:643-678 | the suite is named exactly when the element has a name attribute, and then by its value; it has no child suites; its files are every collected directory file, then the text of every descendant `file` element, in document order |
| `TestSuites.GetTestSuites` | PHPUnit/Util/Configuration.php:630-632 | one suite per element, in order, each built from its own element only |
| `TestSuites.SuiteNodes` | PHPUnit/Util/Configuration.php:617-621 | the selected elements are those of `testsuites/testsuite` when there are any, and otherwise the top-level `testsuite` elements |
| `TestSuites.GetTestSuiteConfiguration` | PHPUnit/Util/Configuration.php:615-636 | no suite when no element is selected; one element gives its own suite; several give an unnamed suite with no files whose children are exactly each element's suite, in order |
| `TestSuites.TopLevelFallback` | PHPUnit/Util/Configuration.php:617-625 | with nothing under `testsuites` and exactly one top-level `testsuite`, the top-level elements are selected and the result is that element's own suite, files included, named as its element |
| `TestSuites.NamedChildSuites` | PHPUnit/Util/Configuration.php:627-634 | several named suite elements give one child per element, each with its element's name and only its element's files |
| `PhpRuntime.HandlePHPConfiguration` | PHPUnit/Util/Configuration.php:454-475 | an ini value that names a constant defined before the call is replaced by that constant's value; constants are defined only when not yet defined (first writer wins); globals are always overwritten (last writer wins); nothing else changes |
| `PhpRuntime.ConstsAndGlobalsSettle` | PHPUnit/Util/Configuration.php:466-474 | a second application changes neither the constants nor the globals |
| `PhpRuntime.IniResolutionDependsOnEarlierCalls` | PHPUnit/Util/Configuration.php:458-468 | ini settings do not settle: an ini value that names a constant defined in the same section is kept literally on the first application and resolved on the second |

## Left out

- `getInstance`, the constructor and `__clone` (PHPUnit/Util/Configuration.php:173-210): resolving the real path, loading and parsing the file, and the process-wide cache of instances are file-system and parser plumbing. Every reader here takes the document element instead.
- The registration of the class file in the coverage blacklist (line 49) is a global side effect unrelated to reading the configuration.
- `PHPUnit_Util_XML::xmlToVariable`, the `IncludePathTestCollector` directory walk and PHP's `(int)` cast are not part of this model. They are the parameters `decode`, `collect` and `toInt`.
- Loading test classes from the collected files (`addTestFiles`, `addTestFile`) is not modelled. A suite records the file paths it was given.
- The collector is a total function. Its failure on a directory that does not exist is not modelled, so whether such a failure should abort the whole suite is not decided here.
- An unnamed `PHPUnit_Framework_TestSuite` has the empty name in PHP. The model writes it as `None`.
- PHP arrays keep insertion order and turn integer-like string keys into integers. The model's maps keep neither. No reader here depends on either, because every key is written and read back by its string.
- Only element and character-data nodes are modelled. Comments and processing instructions are not. A comment in second position would keep a listener's arguments from being read, exactly as character data does.
- `strtolower` is modelled as ASCII lower-casing, its behaviour in the default C locale.
- `PhpRuntime.HandlePHPConfiguration` represents constant values as booleans or text only. PHP's predefined integer constants would be turned into their string form before they reach an ini setting. Failures of `ini_set` are not modelled. `defined()` accepts TRUE, FALSE and NULL in any letter case; the model looks names up exactly, so an environment must list every spelling of those three that it wants resolved.
