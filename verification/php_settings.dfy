/**
  The `php` section: `ini`, `const` and `var` elements, each read into its own
  map from the `name` attribute to the `value` attribute. A later element with
  the same name replaces an earlier one. `const` and `var` values that spell
  true or false (in any case) become booleans; `ini` values stay text.
 */
module PhpSettings {
  import opened Xml
  import opened Overwrite
  import opened Strings
  import opened Configuration

  datatype PhpValue = PhpString(text: string) | PhpBool(flag: bool)

  datatype PhpConfiguration = PhpConfiguration(
    ini: map<string, string>,
    consts: map<string, PhpValue>,
    vars: map<string, PhpValue>)

  /** The value of a `const` or `var` element: a boolean for the two words, the text otherwise. */
  function CoerceValue(value: string): (r: PhpValue)
    ensures r.PhpBool? <==> IsFalseWord(value) || IsTrueWord(value)
    ensures r.PhpBool? ==> r.flag == IsTrueWord(value)
    ensures r.PhpString? ==> r.text == value
  {
    ToLowerIsSpelling(value, "false");
    ToLowerIsSpelling(value, "true");
    if ToLower(value) == "false" then PhpBool(false)
    else if ToLower(value) == "true" then PhpBool(true)
    else PhpString(value)
  }

  function Name(e: Node): string {
    GetAttribute(e, "name")
  }

  function Value(e: Node): string {
    GetAttribute(e, "value")
  }

  /** The one-entry write each element makes. */
  function NameWrites<V>(es: seq<Node>, valueOf: string -> V): (r: seq<map<string, V>>)
    ensures |r| == |es|
    ensures forall i :: 0 <= i < |es| ==> r[i] == map[Name(es[i]) := valueOf(Value(es[i]))]
  {
    seq(|es|, i requires 0 <= i < |es| => map[Name(es[i]) := valueOf(Value(es[i]))])
  }

  /** `es[j]` is the last element of `es` named `name`. */
  predicate LastNamed(es: seq<Node>, name: string, j: int) {
    && 0 <= j < |es|
    && Name(es[j]) == name
    && forall i :: j < i < |es| ==> Name(es[i]) != name
  }

  /** The map the elements `es` build: the names that occur, each bound to the (converted)
      value of the last element carrying it. */
  function NamedValues<V>(es: seq<Node>, valueOf: string -> V): (r: map<string, V>)
    ensures forall k :: k in r <==> exists i :: 0 <= i < |es| && Name(es[i]) == k
    ensures forall k, j :: LastNamed(es, k, j) ==> k in r && r[k] == valueOf(Value(es[j]))
  {
    var ups := NameWrites(es, valueOf);
    assert forall k :: Written(ups, k) <==> exists i :: 0 <= i < |es| && Name(es[i]) == k by {
      forall k ensures Written(ups, k) <==> exists i :: 0 <= i < |es| && Name(es[i]) == k {
        if Written(ups, k) {
          var i :| 0 <= i < |ups| && k in ups[i];
          assert Name(es[i]) == k;
        }
        if exists i :: 0 <= i < |es| && Name(es[i]) == k {
          var i :| 0 <= i < |es| && Name(es[i]) == k;
          assert k in ups[i];
        }
      }
    }
    assert forall k, j :: LastNamed(es, k, j) ==> LastWriter(ups, k, j);
    Overlay(map[], ups)
  }

  /** The three maps of the `php` section. */
  function GetPHPConfiguration(root: Node): (r: PhpConfiguration)
    ensures var es := Query(root, ["php", "ini"]);
      forall k, j :: LastNamed(es, k, j) ==> k in r.ini && r.ini[k] == Value(es[j])
    ensures var es := Query(root, ["php", "const"]);
      forall k, j :: LastNamed(es, k, j) ==> k in r.consts && r.consts[k] == CoerceValue(Value(es[j]))
    ensures var es := Query(root, ["php", "var"]);
      forall k, j :: LastNamed(es, k, j) ==> k in r.vars && r.vars[k] == CoerceValue(Value(es[j]))
    ensures forall k :: k in r.ini <==> exists e :: e in Query(root, ["php", "ini"]) && Name(e) == k
    ensures forall k :: k in r.consts <==> exists e :: e in Query(root, ["php", "const"]) && Name(e) == k
    ensures forall k :: k in r.vars <==> exists e :: e in Query(root, ["php", "var"]) && Name(e) == k
  {
    PhpConfiguration(
      NamedValues(Query(root, ["php", "ini"]), (v: string) => v),
      NamedValues(Query(root, ["php", "const"]), CoerceValue),
      NamedValues(Query(root, ["php", "var"]), CoerceValue))
  }

  /** A `const` declared with value "true" is stored as the boolean true, not as text. */
  lemma ConstTrueIsBoolean(es: seq<Node>, name: string, j: nat)
    requires LastNamed(es, name, j)
    requires Value(es[j]) == "true"
    ensures var r := NamedValues(es, CoerceValue);
      name in r && r[name] == PhpBool(true)
  {
  }
}
