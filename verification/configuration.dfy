/**
  The section readers of the PHPUnit XML configuration that do not need a
  module of their own: boolean coercion, the coverage filter lists, the group
  selection, the listener declarations and the Selenium browser profiles.
  Every query is relative to the document element `root`.
 */
module Configuration {
  import opened Xml
  import opened Strings

  /** "false" in any mix of letter cases. */
  predicate IsFalseWord(s: string) {
    SpellsIgnoringCase(s, "false")
  }

  /** "true" in any mix of letter cases. */
  predicate IsTrueWord(s: string) {
    SpellsIgnoringCase(s, "true")
  }

  /** Reads an attribute text as a boolean: the words true and false in any case, anything else gives `default`. */
  function GetBoolean(value: string, default: bool): (r: bool)
    ensures IsFalseWord(value) ==> !r
    ensures IsTrueWord(value) ==> r
    ensures !IsFalseWord(value) && !IsTrueWord(value) ==> r == default
  {
    ToLowerIsSpelling(value, "false");
    ToLowerIsSpelling(value, "true");
    if ToLower(value) == "false" then false
    else if ToLower(value) == "true" then true
    else default
  }

  /** GetBoolean falls back to its default exactly for texts that are neither word. */
  lemma GetBooleanUsesDefault(value: string)
    ensures GetBoolean(value, false) != GetBoolean(value, true)
        <==> !IsFalseWord(value) && !IsTrueWord(value)
  {
  }

  // ---------------------------------------------------------------- filters

  /** One `directory` entry of a coverage blacklist or whitelist. */
  datatype DirectoryFilter = DirectoryFilter(path: string, prefix: string, suffix: string, group: string)

  /** The entries of one include or exclude part of a list. */
  datatype FilterList = FilterList(directories: seq<DirectoryFilter>, files: seq<string>)

  datatype FilterLists = FilterLists(included: FilterList, excluded: FilterList)

  datatype FilterConfiguration = FilterConfiguration(
    blacklist: FilterLists,
    whitelist: FilterLists,
    addUncoveredFilesFromWhitelist: bool)

  /** `d` is what a filter `directory` element `e` declares: an absent prefix,
      suffix or group takes the documented default, a present one is kept verbatim. */
  ghost predicate DeclaredDirectory(d: DirectoryFilter, e: Node) {
    && d.path == TextContent(e)
    && (if HasAttribute(e, "prefix") then d.prefix == e.attrs["prefix"] else d.prefix == "")
    && (if HasAttribute(e, "suffix") then d.suffix == e.attrs["suffix"] else d.suffix == ".php")
    && (if HasAttribute(e, "group") then d.group == e.attrs["group"] else d.group == "DEFAULT")
  }

  function DirectoryEntries(es: seq<Node>): (r: seq<DirectoryFilter>)
    ensures |r| == |es|
    ensures forall i :: 0 <= i < |es| ==> DeclaredDirectory(r[i], es[i])
  {
    if es == [] then []
    else
      var e := es[0];
      [DirectoryFilter(TextContent(e), AttributeOr(e, "prefix", ""), AttributeOr(e, "suffix", ".php"),
                       AttributeOr(e, "group", "DEFAULT"))]
      + DirectoryEntries(es[1..])
  }

  /** The directory entries found at `path`: one per matched element, in document order, none merged. */
  function ReadFilterDirectories(root: Node, path: seq<string>): (r: seq<DirectoryFilter>)
    ensures |r| == |Query(root, path)|
    ensures forall i :: 0 <= i < |r| ==> DeclaredDirectory(r[i], Query(root, path)[i])
  {
    DirectoryEntries(Query(root, path))
  }

  /** The text of every node of `es`, in order. */
  function Texts(es: seq<Node>): (r: seq<string>)
    ensures |r| == |es|
    ensures forall i :: 0 <= i < |es| ==> r[i] == TextContent(es[i])
  {
    if es == [] then [] else [TextContent(es[0])] + Texts(es[1..])
  }

  /** The file entries found at `path`: the text of each matched element, in document order. */
  function ReadFilterFiles(root: Node, path: seq<string>): (r: seq<string>)
    ensures |r| == |Query(root, path)|
    ensures forall i :: 0 <= i < |r| ==> r[i] == TextContent(Query(root, path)[i])
  {
    Texts(Query(root, path))
  }

  const AddUncovered := "addUncoveredFilesFromWhitelist"

  /** The whitelist flag: on unless the one and only `filter/whitelist` element says false. */
  function AddUncoveredFilesFromWhitelist(root: Node): (r: bool)
    ensures var ws := Query(root, ["filter", "whitelist"]);
      !r <==> |ws| == 1 && HasAttribute(ws[0], AddUncovered) && IsFalseWord(ws[0].attrs[AddUncovered])
  {
    var ws := Query(root, ["filter", "whitelist"]);
    if |ws| == 1 && HasAttribute(ws[0], AddUncovered) then GetBoolean(GetAttribute(ws[0], AddUncovered), true)
    else true
  }

  /** The directory and file entries of one list part, `base` being its path without the last tag. */
  function ReadFilterList(root: Node, base: seq<string>): FilterList {
    FilterList(ReadFilterDirectories(root, base + ["directory"]), ReadFilterFiles(root, base + ["file"]))
  }

  /** The coverage filter: each of the eight lists read from its own fixed path. */
  function GetFilterConfiguration(root: Node): (r: FilterConfiguration)
    ensures r.whitelist.included.directories == ReadFilterDirectories(root, ["filter", "whitelist", "directory"])
    ensures r.whitelist.excluded.directories == ReadFilterDirectories(root, ["filter", "whitelist", "exclude", "directory"])
    ensures r.whitelist.included.files == ReadFilterFiles(root, ["filter", "whitelist", "file"])
    ensures r.whitelist.excluded.files == ReadFilterFiles(root, ["filter", "whitelist", "exclude", "file"])
    ensures r.blacklist.included.directories == ReadFilterDirectories(root, ["filter", "blacklist", "directory"])
    ensures r.blacklist.excluded.directories == ReadFilterDirectories(root, ["filter", "blacklist", "exclude", "directory"])
    ensures r.blacklist.included.files == ReadFilterFiles(root, ["filter", "blacklist", "file"])
    ensures r.blacklist.excluded.files == ReadFilterFiles(root, ["filter", "blacklist", "exclude", "file"])
    ensures r.addUncoveredFilesFromWhitelist == AddUncoveredFilesFromWhitelist(root)
  {
    assert ["filter", "whitelist"] + ["directory"] == ["filter", "whitelist", "directory"];
    assert ["filter", "whitelist"] + ["file"] == ["filter", "whitelist", "file"];
    assert ["filter", "whitelist", "exclude"] + ["directory"] == ["filter", "whitelist", "exclude", "directory"];
    assert ["filter", "whitelist", "exclude"] + ["file"] == ["filter", "whitelist", "exclude", "file"];
    assert ["filter", "blacklist"] + ["directory"] == ["filter", "blacklist", "directory"];
    assert ["filter", "blacklist"] + ["file"] == ["filter", "blacklist", "file"];
    assert ["filter", "blacklist", "exclude"] + ["directory"] == ["filter", "blacklist", "exclude", "directory"];
    assert ["filter", "blacklist", "exclude"] + ["file"] == ["filter", "blacklist", "exclude", "file"];
    FilterConfiguration(
      FilterLists(ReadFilterList(root, ["filter", "blacklist"]), ReadFilterList(root, ["filter", "blacklist", "exclude"])),
      FilterLists(ReadFilterList(root, ["filter", "whitelist"]), ReadFilterList(root, ["filter", "whitelist", "exclude"])),
      AddUncoveredFilesFromWhitelist(root))
  }

  // ----------------------------------------------------------------- groups

  datatype GroupConfiguration = GroupConfiguration(included: seq<string>, excluded: seq<string>)

  /** The included and excluded group names, as declared, in order, duplicates kept. */
  function GetGroupConfiguration(root: Node): (r: GroupConfiguration)
    ensures var inc := Query(root, ["groups", "include", "group"]);
      |r.included| == |inc| && forall i :: 0 <= i < |inc| ==> r.included[i] == TextContent(inc[i])
    ensures var exc := Query(root, ["groups", "exclude", "group"]);
      |r.excluded| == |exc| && forall i :: 0 <= i < |exc| ==> r.excluded[i] == TextContent(exc[i])
  {
    GroupConfiguration(Texts(Query(root, ["groups", "include", "group"])),
                       Texts(Query(root, ["groups", "exclude", "group"])))
  }

  // -------------------------------------------------------------- listeners

  /** A listener declaration; `V` is whatever the argument decoder produces. */
  datatype Listener<V> = Listener(className: string, file: string, arguments: seq<V>)

  function Decode<V>(es: seq<Node>, decode: Node -> V): (r: seq<V>)
    ensures |r| == |es|
    ensures forall i :: 0 <= i < |es| ==> r[i] == decode(es[i])
  {
    if es == [] then [] else [decode(es[0])] + Decode(es[1..], decode)
  }

  /** The constructor arguments of a listener: read only when its second child node
      is an `arguments` element, and then the decoding of that node's element children, in order. */
  function ListenerArguments<V>(listener: Node, decode: Node -> V): (r: seq<V>)
    ensures var cs := ChildNodes(listener);
      if |cs| > 1 && IsElement(cs[1], "arguments") then
        var args := Elements(cs[1].children);
        |r| == |args| && forall i :: 0 <= i < |args| ==> r[i] == decode(args[i])
      else r == []
  {
    var cs := ChildNodes(listener);
    if |cs| > 1 && IsElement(cs[1], "arguments") then Decode(Elements(cs[1].children), decode) else []
  }

  function ReadListener<V>(listener: Node, decode: Node -> V): Listener<V> {
    Listener(GetAttribute(listener, "class"), AttributeOr(listener, "file", ""), ListenerArguments(listener, decode))
  }

  function ReadListeners<V>(ls: seq<Node>, decode: Node -> V): (r: seq<Listener<V>>)
    ensures |r| == |ls|
    ensures forall i :: 0 <= i < |ls| ==> r[i] == ReadListener(ls[i], decode)
  {
    if ls == [] then [] else [ReadListener(ls[0], decode)] + ReadListeners(ls[1..], decode)
  }

  /** One listener per `listeners/listener` element, in order; class is the empty string when
      absent, file the empty string when absent. */
  function GetListenerConfiguration<V>(root: Node, decode: Node -> V): (r: seq<Listener<V>>)
    ensures var ls := Query(root, ["listeners", "listener"]);
      && |r| == |ls|
      && forall i :: 0 <= i < |ls| ==>
           && r[i].className == (if HasAttribute(ls[i], "class") then ls[i].attrs["class"] else "")
           && r[i].file == (if HasAttribute(ls[i], "file") then ls[i].attrs["file"] else "")
           && r[i].arguments == ListenerArguments(ls[i], decode)
  {
    ReadListeners(Query(root, ["listeners", "listener"]), decode)
  }

  /** A listener whose `arguments` element is its first child node (no character data
      before it) gets no arguments at all. */
  lemma ArgumentsMustBeSecondChild<V>(attrs: map<string, string>, args: seq<Node>, rest: seq<Node>, decode: Node -> V)
    requires Elements(args) != []
    requires forall i :: 0 <= i < |rest| ==> rest[i].Text?
    ensures ReadListener(Elem("listener", attrs, [Elem("arguments", map[], args)] + rest), decode).arguments == []
  {
  }

  // --------------------------------------------------------------- selenium

  /** A Selenium browser profile. */
  datatype Browser = Browser(name: string, browser: string, host: string, port: int, timeout: int)

  function ReadBrowser(e: Node, toInt: string -> int): Browser {
    Browser(
      GetAttribute(e, "name"),
      GetAttribute(e, "browser"),
      AttributeOr(e, "host", "localhost"),
      if HasAttribute(e, "port") then toInt(e.attrs["port"]) else 4444,
      if HasAttribute(e, "timeout") then toInt(e.attrs["timeout"]) else 30000)
  }

  function ReadBrowsers(es: seq<Node>, toInt: string -> int): (r: seq<Browser>)
    ensures |r| == |es|
    ensures forall i :: 0 <= i < |es| ==> r[i] == ReadBrowser(es[i], toInt)
  {
    if es == [] then [] else [ReadBrowser(es[0], toInt)] + ReadBrowsers(es[1..], toInt)
  }

  /** One profile per `selenium/browser` element, in order; host, port and timeout default to
      "localhost", 4444 and 30000; `toInt` is PHP's integer cast of an attribute text. */
  function GetSeleniumBrowserConfiguration(root: Node, toInt: string -> int): (r: seq<Browser>)
    ensures var bs := Query(root, ["selenium", "browser"]);
      && |r| == |bs|
      && forall i :: 0 <= i < |bs| ==>
           && r[i].name == GetAttribute(bs[i], "name")
           && r[i].browser == GetAttribute(bs[i], "browser")
           && (if HasAttribute(bs[i], "host") then r[i].host == bs[i].attrs["host"] else r[i].host == "localhost")
           && (if HasAttribute(bs[i], "port") then r[i].port == toInt(bs[i].attrs["port"]) else r[i].port == 4444)
           && (if HasAttribute(bs[i], "timeout") then r[i].timeout == toInt(bs[i].attrs["timeout"]) else r[i].timeout == 30000)
  {
    ReadBrowsers(Query(root, ["selenium", "browser"]), toInt)
  }
}
