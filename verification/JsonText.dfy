/** `JSON.stringify`, and the keys and strings that a parse of its text visits. */
module JsonText {
  import opened Json
  import opened CanonicalJson

  /** `JSON.stringify`: members in insertion order. */
  function Stringify(j: Json): string
    requires WellFormed(j)
    decreases j, 1, 0
  {
    match j
    case Null => "null"
    case Bool(b) => if b then "true" else "false"
    case Num(n) => PrintInt(n)
    case Str(s) => Quote(s)
    case Arr(items) => "[" + StringifyItems(j, items) + "]"
    case Obj(keys, _) => "{" + StringifyMembers(j, keys) + "}"
  }

  function StringifyItems(ghost whole: Json, items: seq<Json>): string
    requires forall i :: 0 <= i < |items| ==> items[i] < whole && WellFormed(items[i])
    decreases whole, 0, |items|
  {
    if items == [] then ""
    else if |items| == 1 then Stringify(items[0])
    else Stringify(items[0]) + "," + StringifyItems(whole, items[1..])
  }

  function StringifyMembers(whole: Json, keys: seq<string>): string
    requires whole.Obj? && WellFormed(whole) && forall k <- keys :: k in whole.fields
    decreases whole, 0, |keys|
  {
    if keys == [] then ""
    else
      var member := Quote(keys[0]) + ":" + Stringify(whole.fields[keys[0]]);
      if |keys| == 1 then member else member + "," + StringifyMembers(whole, keys[1..])
  }

  /** What the reviver sees of the value under `key`: below it first, then the key, and the value if it is a string. */
  function Visited(key: string, j: Json): seq<string>
    requires WellFormed(j)
    decreases j, 1, 0
  {
    match j
    case Str(s) => [key, s]
    case Arr(items) => VisitedItems(j, items, 0) + [key]
    case Obj(keys, _) => VisitedMembers(j, keys) + [key]
    case _ => [key]
  }

  /** The items from the `n`-th on, keyed by their index. */
  function VisitedItems(ghost whole: Json, items: seq<Json>, n: nat): seq<string>
    requires n <= |items| && forall i :: 0 <= i < |items| ==> items[i] < whole && WellFormed(items[i])
    decreases whole, 0, |items| - n
  {
    if n == |items| then [] else Visited(PrintNat(n), items[n]) + VisitedItems(whole, items, n + 1)
  }

  function VisitedMembers(whole: Json, keys: seq<string>): seq<string>
    requires whole.Obj? && WellFormed(whole) && forall k <- keys :: k in whole.fields
    decreases whole, 0, |keys|
  {
    if keys == [] then [] else Visited(keys[0], whole.fields[keys[0]]) + VisitedMembers(whole, keys[1..])
  }

  /** `s` is a string or an object key somewhere in `j`. */
  ghost predicate Holds(j: Json, s: string) {
    match j
    case Str(x) => x == s
    case Arr(items) => exists i :: 0 <= i < |items| && Holds(items[i], s)
    case Obj(_, fields) => exists k :: k in fields && (k == s || Holds(fields[k], s))
    case _ => false
  }

  /** Every string and every object key is visited. */
  lemma {:induction false} VisitsAll(key: string, j: Json, s: string)
    requires WellFormed(j) && Holds(j, s)
    ensures s in Visited(key, j)
    decreases j, 1, 0
  {
    match j
    case Str(_) =>
    case Arr(items) =>
      var i :| 0 <= i < |items| && Holds(items[i], s);
      VisitsItem(j, items, 0, i, s);
    case Obj(keys, fields) =>
      var k :| k in fields && (k == s || Holds(fields[k], s));
      var i :| 0 <= i < |keys| && keys[i] == k;
      VisitsMember(j, keys, i, s);
  }

  lemma {:induction false} VisitsItem(whole: Json, items: seq<Json>, n: nat, i: nat, s: string)
    requires forall k :: 0 <= k < |items| ==> items[k] < whole && WellFormed(items[k])
    requires n <= i < |items| && Holds(items[i], s)
    ensures s in VisitedItems(whole, items, n)
    decreases whole, 0, |items| - n
  {
    if n == i { VisitsAll(PrintNat(n), items[i], s); } else { VisitsItem(whole, items, n + 1, i, s); }
  }

  lemma VisitsItsKey(key: string, j: Json)
    requires WellFormed(j)
    ensures key in Visited(key, j)
  {
  }

  lemma {:induction false} VisitsMember(whole: Json, keys: seq<string>, i: nat, s: string)
    requires whole.Obj? && WellFormed(whole) && forall k <- keys :: k in whole.fields
    requires i < |keys| && (keys[i] == s || Holds(whole.fields[keys[i]], s))
    ensures s in VisitedMembers(whole, keys)
    decreases whole, 0, |keys|
  {
    if i == 0 {
      VisitsItsKey(keys[0], whole.fields[keys[0]]);
      if keys[0] != s { VisitsAll(keys[0], whole.fields[keys[0]], s); }
    } else {
      VisitsMember(whole, keys[1..], i - 1, s);
    }
  }
}
