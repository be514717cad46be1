/**
  Sequential assignment into a PHP array used as a map: applying a run of
  updates in order, so that a later write to a key replaces an earlier one
  and keys nobody writes keep their value.
 */
module Overwrite {

  /** Some update in `ups` writes key `k`. */
  predicate Written<V>(ups: seq<map<string, V>>, k: string) {
    exists i :: 0 <= i < |ups| && k in ups[i]
  }

  /** `ups[j]` is the last update in `ups` that writes `k`. */
  predicate LastWriter<V>(ups: seq<map<string, V>>, k: string, j: int) {
    && 0 <= j < |ups|
    && k in ups[j]
    && forall i :: j < i < |ups| ==> k !in ups[i]
  }

  /** `m` with every update of `ups` applied, first to last. */
  function Overlay<V>(m: map<string, V>, ups: seq<map<string, V>>): (r: map<string, V>)
    ensures forall k :: k in r <==> k in m || Written(ups, k)
    ensures forall k, j :: 0 <= j < |ups| && k in ups[j] ==> k in r
    ensures forall k, j :: LastWriter(ups, k, j) ==> r[k] == ups[j][k]
    ensures forall k :: k in m && !Written(ups, k) ==> r[k] == m[k]
    decreases |ups|
  {
    if ups == [] then m
    else
      var r := Overlay(m + ups[0], ups[1..]);
      assert forall k :: Written(ups[1..], k) ==> Written(ups, k) by {
        forall k | Written(ups[1..], k) ensures Written(ups, k) {
          var i :| 0 <= i < |ups[1..]| && k in ups[1..][i];
          assert k in ups[i + 1];
        }
      }
      assert forall k :: Written(ups, k) && k !in ups[0] ==> Written(ups[1..], k) by {
        forall k | Written(ups, k) && k !in ups[0] ensures Written(ups[1..], k) {
          var i :| 0 <= i < |ups| && k in ups[i];
          assert k in ups[1..][i - 1];
        }
      }
      assert forall k, j :: LastWriter(ups, k, j) && j > 0 ==> LastWriter(ups[1..], k, j - 1) by {
        forall k, j | LastWriter(ups, k, j) && j > 0 ensures LastWriter(ups[1..], k, j - 1) {
          forall i | j - 1 < i < |ups[1..]| ensures k !in ups[1..][i] {
            assert ups[1..][i] == ups[i + 1];
          }
        }
      }
      assert forall k :: LastWriter(ups, k, 0) ==> !Written(ups[1..], k) by {
        forall k | LastWriter(ups, k, 0) ensures !Written(ups[1..], k) {
          forall i | 0 <= i < |ups[1..]| ensures k !in ups[1..][i] {
            assert ups[1..][i] == ups[i + 1];
          }
        }
      }
      r
  }
}
