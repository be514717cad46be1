/**
  The logging section. Every `logging/log` element writes into one flat map:
  the extra attributes of its type (for coverage-html and junit), then its
  type as a key with its target as the value. Later elements overwrite the
  keys they write and leave every other key alone.
 */
module Logging {
  import opened Xml
  import opened Overwrite
  import Configuration

  datatype LogValue = LogText(text: string) | LogFlag(flag: bool)

  const HtmlTextKeys: set<string> := {"title", "charset", "lowUpperBound", "highLowerBound"}
  const HtmlFlagKeys: set<string> := {"yui", "highlight"}
  const JunitFlagKey := "logIncompleteSkipped"

  function LogType(log: Node): string {
    GetAttribute(log, "type")
  }

  /** `key` is an extra attribute that a log element of type `logType` copies into the result. */
  predicate ExtraAttribute(logType: string, key: string) {
    || (logType == "coverage-html" && (key in HtmlTextKeys || key in HtmlFlagKeys))
    || (logType == "junit" && key == JunitFlagKey)
  }

  /** The stored value of an extra attribute: text verbatim, flags read as booleans defaulting to false. */
  function ExtraValue(key: string, text: string): LogValue {
    if key in HtmlTextKeys then LogText(text) else LogFlag(Configuration.GetBoolean(text, false))
  }

  function Extras(log: Node, logType: string): map<string, LogValue> {
    if logType == "coverage-html" then
      (map k | k in HtmlTextKeys && HasAttribute(log, k) :: LogText(log.attrs[k]))
      + (map k | k in HtmlFlagKeys && HasAttribute(log, k) :: LogFlag(Configuration.GetBoolean(log.attrs[k], false)))
    else if logType == "junit" && HasAttribute(log, JunitFlagKey) then
      map[JunitFlagKey := LogFlag(Configuration.GetBoolean(log.attrs[JunitFlagKey], false))]
    else
      map[]
  }

  /** The writes of one log element: its present extra attributes and its type mapped to its target. */
  function LogWrites(log: Node): (r: map<string, LogValue>)
    ensures LogType(log) in r && r[LogType(log)] == LogText(GetAttribute(log, "target"))
    ensures forall k :: k in r <==> k == LogType(log) || (ExtraAttribute(LogType(log), k) && HasAttribute(log, k))
    ensures forall k :: ExtraAttribute(LogType(log), k) && HasAttribute(log, k) ==> r[k] == ExtraValue(k, log.attrs[k])
  {
    var logType := LogType(log);
    Extras(log, logType)[logType := LogText(GetAttribute(log, "target"))]
  }

  function Logs(root: Node): seq<Node> {
    Query(root, ["logging", "log"])
  }

  function WritesOf(logs: seq<Node>): (r: seq<map<string, LogValue>>)
    ensures |r| == |logs|
    ensures forall i :: 0 <= i < |logs| ==> r[i] == LogWrites(logs[i])
  {
    seq(|logs|, i requires 0 <= i < |logs| => LogWrites(logs[i]))
  }

  /** The map the elements `logs` build, first to last: a key is present exactly when
      some element writes it. */
  function LoggingOf(logs: seq<Node>): (r: map<string, LogValue>)
    ensures forall k :: k in r <==>
      exists i :: 0 <= i < |logs| && (k == LogType(logs[i]) || (ExtraAttribute(LogType(logs[i]), k) && HasAttribute(logs[i], k)))
  {
    var ups := WritesOf(logs);
    assert forall k :: Written(ups, k) <==>
      exists i :: 0 <= i < |logs| && (k == LogType(logs[i]) || (ExtraAttribute(LogType(logs[i]), k) && HasAttribute(logs[i], k)));
    Overlay(map[], ups)
  }

  /** The logging configuration: the map built by the `logging/log` elements in document order;
      a key is present exactly when one of those elements writes it. */
  function GetLoggingConfiguration(root: Node): (r: map<string, LogValue>)
    ensures var logs := Query(root, ["logging", "log"]);
      forall k :: k in r <==>
        exists i :: 0 <= i < |logs| && (k == LogType(logs[i]) || (ExtraAttribute(LogType(logs[i]), k) && HasAttribute(logs[i], k)))
  {
    LoggingOf(Logs(root))
  }

  /** The key of a log type is bound to the target of the last element of that type,
      provided no later element writes that key as one of its extra attributes (which
      cannot happen unless the type is itself named like an extra attribute). */
  lemma {:induction false} LastTargetWins(logs: seq<Node>, j: nat)
    requires j < |logs|
    requires forall i :: j < i < |logs| ==> LogType(logs[i]) != LogType(logs[j])
    requires forall i :: j < i < |logs| ==>
      !(ExtraAttribute(LogType(logs[i]), LogType(logs[j])) && HasAttribute(logs[i], LogType(logs[j])))
    ensures var r := LoggingOf(logs);
      LogType(logs[j]) in r && r[LogType(logs[j])] == LogText(GetAttribute(logs[j], "target"))
  {
    var ups := WritesOf(logs);
    var t := LogType(logs[j]);
    forall i | j < i < |ups| ensures t !in ups[i] {
      assert ups[i] == LogWrites(logs[i]);
    }
    assert LastWriter(ups, t, j);
  }

  /** An extra attribute set by an element stays in the map unless a later element writes
      the same key, whether as an extra attribute or as its type. */
  lemma {:induction false} ExtraAttributePersists(logs: seq<Node>, j: nat, k: string)
    requires j < |logs|
    requires ExtraAttribute(LogType(logs[j]), k) && HasAttribute(logs[j], k)
    requires forall i :: j < i < |logs| ==>
      LogType(logs[i]) != k && !(ExtraAttribute(LogType(logs[i]), k) && HasAttribute(logs[i], k))
    ensures var r := LoggingOf(logs);
      k in r && r[k] == ExtraValue(k, logs[j].attrs[k])
  {
    var ups := WritesOf(logs);
    forall i | j < i < |ups| ensures k !in ups[i] {
      assert ups[i] == LogWrites(logs[i]);
    }
    assert LastWriter(ups, k, j);
  }

  /** A coverage-html log with a title followed by one without: the later target wins, the title stays. */
  lemma TitleSurvivesLaterTarget()
    ensures var first := Elem("log", map["type" := "coverage-html", "target" := "/tmp/a", "title" := "T"], []);
      var second := Elem("log", map["type" := "coverage-html", "target" := "/tmp/b"], []);
      var r := LoggingOf([first, second]);
      && "coverage-html" in r && r["coverage-html"] == LogText("/tmp/b")
      && "title" in r && r["title"] == LogText("T")
  {
    var first := Elem("log", map["type" := "coverage-html", "target" := "/tmp/a", "title" := "T"], []);
    var second := Elem("log", map["type" := "coverage-html", "target" := "/tmp/b"], []);
    assert LogType(first) == "coverage-html" && LogType(second) == "coverage-html";
    assert !HasAttribute(second, "coverage-html") && !HasAttribute(second, "title");
    LastTargetWins([first, second], 1);
    assert "title" in HtmlTextKeys;
    assert ExtraAttribute(LogType(first), "title") && HasAttribute(first, "title");
    ExtraAttributePersists([first, second], 0, "title");
  }

  /** A later element of another type that merely carries an attribute named like an earlier
      type does not disturb that type's target. */
  lemma UnrelatedAttributeKeepsTarget()
    ensures var first := Elem("log", map["type" := "junit", "target" := "a"], []);
      var second := Elem("log", map["type" := "tap", "target" := "b", "junit" := "x"], []);
      var r := LoggingOf([first, second]);
      "junit" in r && r["junit"] == LogText("a")
  {
    var first := Elem("log", map["type" := "junit", "target" := "a"], []);
    var second := Elem("log", map["type" := "tap", "target" := "b", "junit" := "x"], []);
    assert LogType(first) == "junit" && LogType(second) == "tap";
    assert !ExtraAttribute("tap", "junit");
    LastTargetWins([first, second], 0);
  }
}
