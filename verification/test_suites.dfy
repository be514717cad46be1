/**
  The test-suite tree. Each selected `testsuite` element becomes one suite
  whose files are, first, the files the collector returns for every
  `directory` element below it (in document order), then the text of every
  `file` element below it (in document order); nesting below a suite element
  is flattened. Several selected elements are wrapped in one unnamed suite.
 */
module TestSuites {
  import opened Options
  import opened Xml
  import opened Configuration

  /** A test suite: an optional name, child suites and test files. */
  datatype Suite = Suite(name: Option<string>, children: seq<Suite>, files: seq<string>)

  /** The external test-file collector: given one root directory, a suffix and a prefix,
      the matching file paths. Walking the file system is its business, not the model's. */
  type Collector = (string, string, string) -> seq<string>

  /** The files the collector yields for one `directory` element: its text is the root,
      the suffix defaults to "Test.php" and the prefix to the empty string. */
  function DirectoryFiles(d: Node, collect: Collector): seq<string> {
    collect(TextContent(d), AttributeOr(d, "suffix", "Test.php"), AttributeOr(d, "prefix", ""))
  }

  /** The collected files of every directory of `ds`, one block per directory, in order. */
  function CollectAll(ds: seq<Node>, collect: Collector): seq<string> {
    if ds == [] then [] else DirectoryFiles(ds[0], collect) + CollectAll(ds[1..], collect)
  }

  /** A single directory contributes exactly the collector's result for it, and nothing else. */
  lemma CollectAllOne(d: Node, collect: Collector)
    ensures CollectAll([d], collect) == DirectoryFiles(d, collect)
  {
    assert [d][1..] == [];
  }

  /** Collecting a concatenation gives the concatenation of the collections. */
  lemma {:induction false} CollectAllAppend(a: seq<Node>, b: seq<Node>, collect: Collector)
    ensures CollectAll(a + b, collect) == CollectAll(a, collect) + CollectAll(b, collect)
  {
    if a == [] {
      assert a + b == b;
    } else {
      assert (a + b)[1..] == a[1..] + b;
      CollectAllAppend(a[1..], b, collect);
    }
  }

  /** The block of directory `ds[j]` starts where the blocks of the earlier directories end. */
  lemma DirectoryBlock(ds: seq<Node>, j: nat, collect: Collector)
    requires j < |ds|
    ensures var r := CollectAll(ds, collect);
      var start := |CollectAll(ds[..j], collect)|;
      var block := DirectoryFiles(ds[j], collect);
      start + |block| <= |r| && r[start..start + |block|] == block
  {
    assert ds == ds[..j] + ds[j..];
    CollectAllAppend(ds[..j], ds[j..], collect);
  }

  function DirectoryNodes(e: Node): seq<Node> {
    Descendants(e, "directory")
  }

  function FileNodes(e: Node): seq<Node> {
    Descendants(e, "file")
  }

  /** One `testsuite` element as a suite: named exactly when it has a name attribute, no
      child suites, the collected directory files first and then the declared files. */
  function GetTestSuite(e: Node, collect: Collector): (r: Suite)
    requires e.Elem?
    ensures r.name.Some? <==> HasAttribute(e, "name")
    ensures r.name.Some? ==> r.name.value == e.attrs["name"]
    ensures r.children == []
    ensures var collected := CollectAll(DirectoryNodes(e), collect);
      var fs := FileNodes(e);
      && |r.files| == |collected| + |fs|
      && r.files[..|collected|] == collected
      && forall i :: 0 <= i < |fs| ==> r.files[|collected| + i] == TextContent(fs[i])
  {
    var name := if HasAttribute(e, "name") then Some(e.attrs["name"]) else None;
    var collected := CollectAll(DirectoryNodes(e), collect);
    var texts := Texts(FileNodes(e));
    assert (collected + texts)[..|collected|] == collected;
    assert forall i :: 0 <= i < |texts| ==> (collected + texts)[|collected| + i] == texts[i];
    Suite(name, [], collected + texts)
  }

  function GetTestSuites(es: seq<Node>, collect: Collector): (r: seq<Suite>)
    requires forall i :: 0 <= i < |es| ==> es[i].Elem?
    ensures |r| == |es|
    ensures forall i :: 0 <= i < |es| ==> r[i] == GetTestSuite(es[i], collect)
  {
    if es == [] then [] else [GetTestSuite(es[0], collect)] + GetTestSuites(es[1..], collect)
  }

  /** The suite elements used: those under `testsuites`, or else the top-level ones. */
  function SuiteNodes(root: Node): (r: seq<Node>)
    ensures var nested := Query(root, ["testsuites", "testsuite"]);
      r == if nested != [] then nested else Query(root, ["testsuite"])
    ensures forall i :: 0 <= i < |r| ==> IsElement(r[i], "testsuite")
  {
    var nested := Query(root, ["testsuites", "testsuite"]);
    assert forall i :: 0 <= i < |nested| ==> nested[i] in nested;
    var top := Query(root, ["testsuite"]);
    assert forall i :: 0 <= i < |top| ==> top[i] in top;
    if |nested| > 0 then nested else top
  }

  /** The configured test-suite tree: nothing without suite elements, the suite itself for
      one element, and for several an unnamed suite with one child per element, in order. */
  function GetTestSuiteConfiguration(root: Node, collect: Collector): (r: Option<Suite>)
    ensures var es := SuiteNodes(root);
      && (r.None? <==> es == [])
      && (|es| == 1 ==> r == Some(GetTestSuite(es[0], collect)))
      && (|es| > 1 ==>
            && r.Some? && r.value.name.None? && r.value.files == []
            && |r.value.children| == |es|
            && forall i :: 0 <= i < |es| ==> r.value.children[i] == GetTestSuite(es[i], collect))
  {
    var es := SuiteNodes(root);
    if |es| == 1 then Some(GetTestSuite(es[0], collect))
    else if |es| > 1 then Some(Suite(None, GetTestSuites(es, collect), []))
    else None
  }

  /** With no suite under `testsuites`, the top-level suite elements are used; when there is
      exactly one, the result is that element's own suite, files included. */
  lemma TopLevelFallback(root: Node, collect: Collector)
    requires Query(root, ["testsuites", "testsuite"]) == []
    requires |Query(root, ["testsuite"])| == 1
    ensures SuiteNodes(root) == Query(root, ["testsuite"])
    ensures var e := Query(root, ["testsuite"])[0];
      var r := GetTestSuiteConfiguration(root, collect);
      && r == Some(GetTestSuite(e, collect))
      && r.value.children == []
      && r.value.name == (if HasAttribute(e, "name") then Some(e.attrs["name"]) else None)
  {
  }

  /** When several suite elements all carry names, the wrapper holds one child per element,
      each named after its own element, each holding only that element's files. */
  lemma NamedChildSuites(root: Node, collect: Collector)
    requires |SuiteNodes(root)| > 1
    requires forall i :: 0 <= i < |SuiteNodes(root)| ==> HasAttribute(SuiteNodes(root)[i], "name")
    ensures var es := SuiteNodes(root);
      var r := GetTestSuiteConfiguration(root, collect);
      && r.Some? && |r.value.children| == |es|
      && forall i :: 0 <= i < |es| ==>
           && r.value.children[i].name == Some(es[i].attrs["name"])
           && r.value.children[i].files == GetTestSuite(es[i], collect).files
  {
  }
}
