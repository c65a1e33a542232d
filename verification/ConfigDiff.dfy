/** The recursive configuration diff (_walk_diff in tools/config_backup.py). */
module ConfigDiff {
  import opened Common

  datatype Json =
    | Null
    | Bool(b: bool)
    | Num(n: int)
    | Text(s: string)
    | List(items: seq<Json>)
    | Obj(fields: map<string, Json>)

  /** A place, as the keys that lead to it, and what both sides have there. */
  datatype Change = Change(path: seq<string>, current: Json, target: Json)

  // ---------------------------------------------------------------- key order

  /** Lexicographic order. */
  predicate Leq(a: string, b: string) {
    a == [] || (b != [] && (a[0] < b[0] || (a[0] == b[0] && Leq(a[1..], b[1..]))))
  }

  lemma {:induction false} LeqTotal(a: string, b: string)
    ensures Leq(a, b) || Leq(b, a)
    decreases |a|
  {
    if a != [] && b != [] { LeqTotal(a[1..], b[1..]); }
  }

  lemma {:induction false} LeqTransitive(a: string, b: string, c: string)
    requires Leq(a, b) && Leq(b, c)
    ensures Leq(a, c)
    decreases |a|
  {
    if a != [] && a[0] == b[0] && b[0] == c[0] { LeqTransitive(a[1..], b[1..], c[1..]); }
  }

  lemma {:induction false} LeqAntisymmetric(a: string, b: string)
    requires Leq(a, b) && Leq(b, a)
    ensures a == b
    decreases |a|
  {
    if a != [] && b != [] {
      LeqAntisymmetric(a[1..], b[1..]);
      assert a == [a[0]] + a[1..] && b == [b[0]] + b[1..];
    }
  }

  lemma SameFirst(a: string, b: string, k: nat)
    requires k <= |a| && k <= |b| && a[..k] == b[..k]
    ensures k > 0 ==> a[0] == b[0]
  {
    assert k > 0 ==> a[..k][0] == a[0] && b[..k][0] == b[0];
  }

  /** The order of text: a text comes before its extensions, and otherwise the first letter in which
      two texts differ decides. */
  lemma {:induction false} LeqIff(a: string, b: string)
    ensures Leq(a, b) <==>
            a <= b || exists k :: 0 <= k < |a| && k < |b| && a[..k] == b[..k] && a[k] < b[k]
    decreases |a|
  {
    if a != [] && b != [] && a[0] == b[0] {
      var c, d := a[1..], b[1..];
      LeqIff(c, d);
      assert a == [a[0]] + c && b == [b[0]] + d;
      if !(c <= d) && Leq(c, d) {
        var k :| 0 <= k < |c| && k < |d| && c[..k] == d[..k] && c[k] < d[k];
        assert a[..k + 1] == [a[0]] + c[..k] && b[..k + 1] == [b[0]] + d[..k] && a[k + 1] < b[k + 1];
      }
      forall k | 0 <= k < |a| && k < |b| && a[..k] == b[..k] && a[k] < b[k] ensures Leq(c, d) {
        assert c[..k - 1] == a[..k][1..] && d[..k - 1] == b[..k][1..] && c[k - 1] < d[k - 1];
      }
    } else if a != [] && b != [] {
      assert a[..0] == b[..0];
      forall k | 0 <= k < |a| && k < |b| && a[..k] == b[..k] && a[k] < b[k] ensures k == 0 {
        SameFirst(a, b, k);
      }
    }
  }

  predicate IsLeast(keys: set<string>, k: string) {
    k in keys && forall x :: x in keys ==> Leq(k, x)
  }

  lemma LeastUnique(keys: set<string>)
    ensures forall k, m :: IsLeast(keys, k) && IsLeast(keys, m) ==> k == m
  {
    forall k, m | IsLeast(keys, k) && IsLeast(keys, m) ensures k == m { LeqAntisymmetric(k, m); }
  }

  lemma {:induction false} LeastExists(keys: set<string>)
    requires keys != {}
    ensures exists k :: IsLeast(keys, k)
    decreases |keys|
  {
    var k :| k in keys;
    var rest := keys - {k};
    LeqTotal(k, k);
    if rest == {} {
      assert keys == {k};
      assert IsLeast(keys, k);
    } else {
      LeastExists(rest);
      var m :| IsLeast(rest, m);
      LeqTotal(k, m);
      var least := if Leq(k, m) then k else m;
      forall x | x in keys ensures Leq(least, x) {
        if x != k && Leq(k, m) { LeqTransitive(k, m, x); }
      }
      assert IsLeast(keys, least);
    }
  }

  function SortedKeys(keys: set<string>): (ks: seq<string>)
    ensures forall k :: k in ks <==> k in keys
    ensures forall i, j :: 0 <= i < j < |ks| ==> ks[i] != ks[j] && Leq(ks[i], ks[j])
    decreases |keys|
  {
    if keys == {} then []
    else
      LeastExists(keys);
      LeastUnique(keys);
      var k :| k in keys && IsLeast(keys, k);
      [k] + SortedKeys(keys - {k})
  }

  // ---------------------------------------------------------------- the diff

  function WalkDiff(current: Json, target: Json, path: seq<string>): seq<Change>
    decreases current, 1, 0
  {
    if current.Obj? && target.Obj? then
      DiffKeys(current, target, SortedKeys(current.fields.Keys + target.fields.Keys), path)
    else if current != target then [Change(path, current, target)]
    else []
  }

  function DiffKeys(current: Json, target: Json, keys: seq<string>, path: seq<string>): seq<Change>
    requires current.Obj? && target.Obj?
    requires forall k :: k in keys ==> k in current.fields || k in target.fields
    decreases current, 0, |keys|
  {
    if keys == [] then []
    else DiffKey(current, target, keys[0], path) + DiffKeys(current, target, keys[1..], path)
  }

  function DiffKey(current: Json, target: Json, key: string, path: seq<string>): seq<Change>
    requires current.Obj? && target.Obj? && (key in current.fields || key in target.fields)
    decreases current, 0, 0
  {
    if key !in current.fields then [Change(path + [key], Null, target.fields[key])]
    else if key !in target.fields then [Change(path + [key], current.fields[key], Null)]
    else WalkDiff(current.fields[key], target.fields[key], path + [key])
  }

  // ---------------------------------------------------------------- empty means equal

  /** The diff is empty if and only if the trees are equal. */
  lemma {:induction false} DiffEmptyIffEqual(current: Json, target: Json, path: seq<string>)
    ensures WalkDiff(current, target, path) == [] <==> current == target
    decreases current, 1, 0
  {
    if current.Obj? && target.Obj? {
      var keys := SortedKeys(current.fields.Keys + target.fields.Keys);
      KeysEmptyIffEqual(current, target, keys, path);
      if WalkDiff(current, target, path) == [] {
        assert forall k :: k in current.fields || k in target.fields ==> k in keys;
        assert current.fields == target.fields;
      }
    }
  }

  lemma {:induction false} KeysEmptyIffEqual(current: Json, target: Json, keys: seq<string>, path: seq<string>)
    requires current.Obj? && target.Obj?
    requires forall k :: k in keys ==> k in current.fields || k in target.fields
    ensures DiffKeys(current, target, keys, path) == [] <==>
            forall k :: k in keys ==> k in current.fields && k in target.fields && current.fields[k] == target.fields[k]
    decreases current, 0, |keys|
  {
    if keys != [] {
      var key := keys[0];
      KeysEmptyIffEqual(current, target, keys[1..], path);
      if key in current.fields && key in target.fields {
        DiffEmptyIffEqual(current.fields[key], target.fields[key], path + [key]);
      }
      assert forall k :: k in keys <==> k == key || k in keys[1..];
    }
  }

  // ---------------------------------------------------------------- entries name real differences

  function At(tree: Json, path: seq<string>): Option<Json>
    decreases |path|
  {
    if path == [] then Some(tree)
    else if tree.Obj? && path[0] in tree.fields then At(tree.fields[path[0]], path[1..])
    else None
  }

  function OrNull(v: Option<Json>): Json {
    if v.Some? then v.value else Null
  }

  predicate IsObject(v: Option<Json>) {
    v.Some? && v.value.Obj?
  }

  /** Entry `e`, found below `path`: both sides really differ there, not merely further down, and
      the entry shows both, with a missing side shown as null. */
  predicate Names(e: Change, current: Json, target: Json, path: seq<string>) {
    && path <= e.path
    && var c, t := At(current, e.path[|path|..]), At(target, e.path[|path|..]);
       c != t && !(IsObject(c) && IsObject(t)) && e.current == OrNull(c) && e.target == OrNull(t)
  }

  lemma NamesBelow(e: Change, current: Json, target: Json, path: seq<string>, key: string)
    requires current.Obj? && target.Obj? && key in current.fields && key in target.fields
    requires Names(e, current.fields[key], target.fields[key], path + [key])
    ensures Names(e, current, target, path)
  {
    var rel := e.path[|path|..];
    assert e.path[|path|] == (path + [key])[|path|] == key;
    assert rel[0] == key && rel[1..] == e.path[|path| + 1..];
  }

  lemma {:induction false} EntriesAreReal(current: Json, target: Json, path: seq<string>, i: nat)
    requires i < |WalkDiff(current, target, path)|
    ensures Names(WalkDiff(current, target, path)[i], current, target, path)
    decreases current, 1, 0
  {
    if current.Obj? && target.Obj? {
      var key := KeyEntriesAreReal(current, target, SortedKeys(current.fields.Keys + target.fields.Keys), path, i);
    } else {
      assert WalkDiff(current, target, path)[i].path[|path|..] == [];
    }
  }

  /** Entry `i` of the keys' diffs, and the key it lies under. */
  lemma {:induction false} KeyEntriesAreReal(current: Json, target: Json, keys: seq<string>, path: seq<string>, i: nat)
    returns (key: string)
    requires current.Obj? && target.Obj?
    requires forall k :: k in keys ==> k in current.fields || k in target.fields
    requires i < |DiffKeys(current, target, keys, path)|
    ensures var e := DiffKeys(current, target, keys, path)[i];
            key in keys && Names(e, current, target, path) && path + [key] <= e.path
    decreases current, 0, |keys|
  {
    var first := DiffKey(current, target, keys[0], path);
    if i < |first| {
      key := keys[0];
      KeyEntryIsReal(current, target, key, path, i);
    } else {
      key := KeyEntriesAreReal(current, target, keys[1..], path, i - |first|);
    }
  }

  lemma {:induction false} KeyEntryIsReal(current: Json, target: Json, key: string, path: seq<string>, i: nat)
    requires current.Obj? && target.Obj? && (key in current.fields || key in target.fields)
    requires i < |DiffKey(current, target, key, path)|
    ensures var e := DiffKey(current, target, key, path)[i];
            Names(e, current, target, path) && path + [key] <= e.path
    decreases current, 0, 0
  {
    var e := DiffKey(current, target, key, path)[i];
    if key in current.fields && key in target.fields {
      EntriesAreReal(current.fields[key], target.fields[key], path + [key], i);
      NamesBelow(e, current, target, path, key);
    } else {
      var rel := e.path[|path|..];
      assert rel == [key] && rel[1..] == [];
    }
  }

  // ---------------------------------------------------------------- no entry contains another

  /** No entry's path extends another's. */
  predicate PrefixFree(d: seq<Change>) {
    forall i, j :: 0 <= i < |d| && 0 <= j < |d| && i != j ==> !(d[i].path <= d[j].path)
  }

  lemma {:induction false} DiffIsPrefixFree(current: Json, target: Json, path: seq<string>)
    ensures PrefixFree(WalkDiff(current, target, path))
    decreases current, 1, 0
  {
    if current.Obj? && target.Obj? {
      KeysPrefixFree(current, target, SortedKeys(current.fields.Keys + target.fields.Keys), path);
    }
  }

  /** Diffs under different keys cannot contain each other. */
  lemma Apart(a: seq<Change>, b: seq<Change>, path: seq<string>, key: string, rest: seq<string>)
    requires PrefixFree(a) && PrefixFree(b) && key !in rest
    requires forall i :: 0 <= i < |a| ==> path + [key] <= a[i].path
    requires forall j :: 0 <= j < |b| ==> exists k :: k in rest && path + [k] <= b[j].path
    ensures PrefixFree(a + b)
  {
    var d := a + b;
    forall i, j | 0 <= i < |a| && 0 <= j < |b| ensures !(a[i].path <= b[j].path) && !(b[j].path <= a[i].path) {
      var k :| k in rest && path + [k] <= b[j].path;
      assert a[i].path[|path|] == (path + [key])[|path|] == key;
      assert b[j].path[|path|] == (path + [k])[|path|] == k;
    }
  }

  lemma {:induction false} KeysPrefixFree(current: Json, target: Json, keys: seq<string>, path: seq<string>)
    requires current.Obj? && target.Obj?
    requires forall k :: k in keys ==> k in current.fields || k in target.fields
    requires forall i, j :: 0 <= i < j < |keys| ==> keys[i] != keys[j]
    ensures PrefixFree(DiffKeys(current, target, keys, path))
    decreases current, 0, |keys|
  {
    if keys != [] {
      var key, rest := keys[0], keys[1..];
      var a, b := DiffKey(current, target, key, path), DiffKeys(current, target, rest, path);
      KeysPrefixFree(current, target, rest, path);
      if key in current.fields && key in target.fields {
        DiffIsPrefixFree(current.fields[key], target.fields[key], path + [key]);
      }
      assert PrefixFree(a);
      forall i | 0 <= i < |a| ensures path + [key] <= a[i].path {
        KeyEntryIsReal(current, target, key, path, i);
      }
      forall j | 0 <= j < |b| ensures exists k :: k in rest && path + [k] <= b[j].path {
        var k := KeyEntriesAreReal(current, target, rest, path, j);
      }
      hide DiffKey, DiffKeys;
      Apart(a, b, path, key, rest);
    }
  }

  // ---------------------------------------------------------------- the order of entries

  /** The first key in which two paths differ is the smaller one in `p`. */
  ghost predicate Precedes(p: seq<string>, q: seq<string>) {
    exists k :: 0 <= k < |p| && k < |q| && p[..k] == q[..k] && p[k] != q[k] && Leq(p[k], q[k])
  }

  ghost predicate Ordered(d: seq<Change>) {
    forall i, j :: 0 <= i < j < |d| ==> Precedes(d[i].path, d[j].path)
  }

  /** Entries come in the order of their keys, at every depth. */
  lemma {:induction false} DiffIsOrdered(current: Json, target: Json, path: seq<string>)
    ensures Ordered(WalkDiff(current, target, path))
    decreases current, 1, 0
  {
    if current.Obj? && target.Obj? {
      KeysOrdered(current, target, SortedKeys(current.fields.Keys + target.fields.Keys), path);
    }
  }

  lemma SmallerKey(p: seq<string>, q: seq<string>, path: seq<string>, a: string, b: string)
    requires path + [a] <= p && path + [b] <= q && a != b && Leq(a, b)
    ensures Precedes(p, q)
  {
    var k := |path|;
    assert p[..k] == (path + [a])[..k] == path && q[..k] == (path + [b])[..k] == path;
    assert p[k] == (path + [a])[k] && q[k] == (path + [b])[k];
  }

  lemma {:induction false} KeysOrdered(current: Json, target: Json, keys: seq<string>, path: seq<string>)
    requires current.Obj? && target.Obj?
    requires forall k :: k in keys ==> k in current.fields || k in target.fields
    requires forall i, j :: 0 <= i < j < |keys| ==> keys[i] != keys[j] && Leq(keys[i], keys[j])
    ensures Ordered(DiffKeys(current, target, keys, path))
    decreases current, 0, |keys|
  {
    if keys != [] {
      var key, rest := keys[0], keys[1..];
      var a, b := DiffKey(current, target, key, path), DiffKeys(current, target, rest, path);
      KeysOrdered(current, target, rest, path);
      if key in current.fields && key in target.fields {
        DiffIsOrdered(current.fields[key], target.fields[key], path + [key]);
      }
      assert Ordered(a);
      forall i, j | 0 <= i < |a| && 0 <= j < |b| ensures Precedes(a[i].path, b[j].path) {
        KeyEntryIsReal(current, target, key, path, i);
        var k := KeyEntriesAreReal(current, target, rest, path, j);
        SmallerKey(a[i].path, b[j].path, path, key, k);
      }
      hide DiffKey, DiffKeys, Precedes;
      assert Ordered(a + b);
    }
  }

  // ---------------------------------------------------------------- paths as text

  /** A path as text, behind the name of the root: a dot before every key. */
  function Dotted(path: seq<string>): string {
    if path == [] then "" else "." + path[0] + Dotted(path[1..])
  }

  predicate DotFree(path: seq<string>) {
    forall i :: 0 <= i < |path| ==> '.' !in path[i]
  }

  /** The text `b` is `a`, or continues it with another key. */
  predicate Extends(a: string, b: string) {
    a <= b && (|b| == |a| || b[|a|] == '.')
  }

  lemma KeysApart(p: string, r: string, q: string, s: string)
    requires '.' !in p && '.' !in q && (r != [] ==> r[0] == '.') && (s != [] ==> s[0] == '.')
    requires p != q
    ensures !Extends("." + p + r, "." + q + s)
  {
    var a, b := "." + p + r, "." + q + s;
    assert forall i :: 0 <= i < |p| ==> a[1 + i] == p[i];
    assert forall i :: 0 <= i < |q| ==> b[1 + i] == q[i];
    assert r != [] ==> a[1 + |p|] == '.';
    assert s != [] ==> b[1 + |q|] == '.';
  }

  lemma SameKey(key: string, r: string, s: string)
    ensures Extends("." + key + r, "." + key + s) <==> Extends(r, s)
  {
    var front := "." + key;
    assert front + r == "." + key + r && front + s == "." + key + s;
    if front + r <= front + s { assert r == (front + s)[|front|..][..|r|]; }
  }

  /** As long as no key holds a dot, text and list of keys extend each other alike. */
  lemma {:induction false} TextExtends(p: seq<string>, q: seq<string>)
    requires DotFree(p) && DotFree(q)
    ensures Extends(Dotted(p), Dotted(q)) <==> p <= q
    decreases |p|
  {
    if p != [] && q != [] {
      TextExtends(p[1..], q[1..]);
      if p[0] == q[0] {
        SameKey(p[0], Dotted(p[1..]), Dotted(q[1..]));
        assert p == [p[0]] + p[1..] && q == [q[0]] + q[1..];
      } else {
        KeysApart(p[0], Dotted(p[1..]), q[0], Dotted(q[1..]));
      }
    }
  }

  /** So without dots in the keys no entry repeats or extends another in the text that a diff shows. */
  lemma TextsApart(current: Json, target: Json)
    ensures var d := WalkDiff(current, target, []);
            forall i, j :: 0 <= i < |d| && 0 <= j < |d| && i != j && DotFree(d[i].path) && DotFree(d[j].path) ==>
              !Extends(Dotted(d[i].path), Dotted(d[j].path))
  {
    var d := WalkDiff(current, target, []);
    DiffIsPrefixFree(current, target, []);
    hide WalkDiff, Extends, Dotted, DotFree;
    forall i, j | 0 <= i < |d| && 0 <= j < |d| && i != j && DotFree(d[i].path) && DotFree(d[j].path)
      ensures !Extends(Dotted(d[i].path), Dotted(d[j].path))
    {
      TextExtends(d[i].path, d[j].path);
    }
  }

  lemma {:induction false} KeyCount(keys: set<string>)
    ensures |SortedKeys(keys)| == |keys|
    decreases |keys|
  {
    if keys != {} { KeyCount(keys - {SortedKeys(keys)[0]}); }
  }

  lemma OneKey()
    ensures SortedKeys({"b"}) == ["b"]
  {
    KeyCount({"b"});
    assert "b" in SortedKeys({"b"});
  }

  lemma TwoKeys()
    ensures SortedKeys({"a", "a.b"}) == ["a", "a.b"]
  {
    var ks := SortedKeys({"a", "a.b"});
    KeyCount({"a", "a.b"});
    assert "a" in ks && "a.b" in ks && |ks| == 2;
    assert "a.b"[1..] != [] && !Leq("a.b", "a");
  }

  lemma DiffOfOne(c: Json, t: Json, a: string, path: seq<string>)
    requires c.Obj? && t.Obj? && a in c.fields && a in t.fields
    ensures DiffKeys(c, t, [a], path) == WalkDiff(c.fields[a], t.fields[a], path + [a])
  {
    assert [a][1..] == [];
    hide WalkDiff;
  }

  lemma DiffOfTwo(c: Json, t: Json, a: string, b: string, path: seq<string>)
    requires c.Obj? && t.Obj? && a in c.fields && a in t.fields && b in c.fields && b in t.fields
    ensures DiffKeys(c, t, [a, b], path)
            == WalkDiff(c.fields[a], t.fields[a], path + [a]) + WalkDiff(c.fields[b], t.fields[b], path + [b])
  {
    DiffOfOne(c, t, b, path);
    assert [a, b][1..] == [b];
    hide WalkDiff;
  }

  lemma Unfolded(c: Json, t: Json, path: seq<string>)
    requires c.Obj? && t.Obj?
    ensures WalkDiff(c, t, path) == DiffKeys(c, t, SortedKeys(c.fields.Keys + t.fields.Keys), path)
  {
    hide DiffKeys, SortedKeys;
  }

  lemma Leaf(m: Json, n: Json, path: seq<string>)
    requires m.Num? && n.Num? && m != n
    ensures WalkDiff(m, n, path) == [Change(path, m, n)]
  {
  }

  lemma InnerDiff(c: Json, t: Json, m: Json, n: Json, path: seq<string>)
    requires c == Obj(map["b" := m]) && t == Obj(map["b" := n]) && m.Num? && n.Num? && m != n
    ensures WalkDiff(c, t, path) == [Change(path + ["b"], m, n)]
  {
    OneKey();
    assert c.fields.Keys + t.fields.Keys == {"b"};
    hide SortedKeys, DiffKeys, WalkDiff;
    Unfolded(c, t, path);
    DiffOfOne(c, t, "b", path);
    Leaf(m, n, path + ["b"]);
  }

  lemma OuterDiff(c: Json, t: Json, a: string, b: string, path: seq<string>)
    requires c.Obj? && t.Obj? && c.fields.Keys == t.fields.Keys == {a, b} && SortedKeys({a, b}) == [a, b]
    requires c.fields[b].Num? && t.fields[b].Num? && c.fields[b] != t.fields[b]
    ensures WalkDiff(c, t, path)
            == WalkDiff(c.fields[a], t.fields[a], path + [a]) + [Change(path + [b], c.fields[b], t.fields[b])]
  {
    hide *;
    Unfolded(c, t, path);
    assert c.fields.Keys + t.fields.Keys == {a, b};
    DiffOfTwo(c, t, a, b, path);
    Leaf(c.fields[b], t.fields[b], path + [b]);
  }

  /** Two entries of one diff name different places and show the same text. */
  predicate Collides(d: seq<Change>) {
    exists i, j :: 0 <= i < j < |d| && d[i].path != d[j].path && Dotted(d[i].path) == Dotted(d[j].path)
  }

  lemma SameText()
    ensures Dotted(["a", "b"]) == Dotted(["a.b"])
  {
    assert ["a", "b"][1..] == ["b"] && ["b"][1..] == [] && ["a.b"][1..] == [];
    assert Dotted(["b"]) == ".b";
  }

  lemma NestedDiff(c: Json, t: Json, c1: Json, t1: Json, m: Json, n: Json)
    requires c == Obj(map["a" := c1, "a.b" := m]) && t == Obj(map["a" := t1, "a.b" := n]) && m.Num? && n.Num? && m != n
    requires c1 == Obj(map["b" := m]) && t1 == Obj(map["b" := n])
    ensures WalkDiff(c, t, []) == [Change(["a", "b"], m, n), Change(["a.b"], m, n)]
  {
    hide *;
    TwoKeys();
    InnerDiff(c1, t1, m, n, ["a"]);
    OuterDiff(c, t, "a", "a.b", []);
    assert [] + ["a"] == ["a"] && [] + ["a.b"] == ["a.b"] && ["a"] + ["b"] == ["a", "b"];
  }

  lemma CollidingPair(e: Change, f: Change)
    requires e.path == ["a", "b"] && f.path == ["a.b"]
    ensures Collides([e, f])
  {
    SameText();
    hide Dotted;
    assert [e, f][0].path != [e, f][1].path;
  }

  /** With a dot that may happen. */
  lemma DotsCanCollide()
    ensures exists current: Json, target: Json :: Collides(WalkDiff(current, target, []))
  {
    hide *;
    var m, n := Num(1), Num(2);
    var c1, t1 := Obj(map["b" := m]), Obj(map["b" := n]);
    var c, t := Obj(map["a" := c1, "a.b" := m]), Obj(map["a" := t1, "a.b" := n]);
    NestedDiff(c, t, c1, t1, m, n);
    CollidingPair(Change(["a", "b"], m, n), Change(["a.b"], m, n));
  }

  // ---------------------------------------------------------------- swapping the sides

  function Swapped(e: Change): Change {
    Change(e.path, e.target, e.current)
  }

  function SwapAll(d: seq<Change>): seq<Change> {
    if d == [] then [] else [Swapped(d[0])] + SwapAll(d[1..])
  }

  lemma {:induction false} SwapConcat(a: seq<Change>, b: seq<Change>)
    ensures SwapAll(a + b) == SwapAll(a) + SwapAll(b)
    decreases |a|
  {
    if a == [] {
      assert a + b == b;
    } else {
      SwapConcat(a[1..], b);
      assert (a + b)[1..] == a[1..] + b;
    }
  }

  /** Swapping the arguments swaps both sides of every entry and keeps their order. */
  lemma {:induction false} DiffSwaps(current: Json, target: Json, path: seq<string>)
    ensures WalkDiff(target, current, path) == SwapAll(WalkDiff(current, target, path))
    decreases current, 1, 0
  {
    if current.Obj? && target.Obj? {
      assert current.fields.Keys + target.fields.Keys == target.fields.Keys + current.fields.Keys;
      KeysSwap(current, target, SortedKeys(current.fields.Keys + target.fields.Keys), path);
    } else if current != target {
      var d := WalkDiff(current, target, path);
      assert d[1..] == [];
    }
  }

  lemma {:induction false} KeysSwap(current: Json, target: Json, keys: seq<string>, path: seq<string>)
    requires current.Obj? && target.Obj?
    requires forall k :: k in keys ==> k in current.fields || k in target.fields
    ensures DiffKeys(target, current, keys, path) == SwapAll(DiffKeys(current, target, keys, path))
    decreases current, 0, |keys|
  {
    if keys != [] {
      var key := keys[0];
      KeysSwap(current, target, keys[1..], path);
      if key in current.fields && key in target.fields {
        DiffSwaps(current.fields[key], target.fields[key], path + [key]);
      } else {
        assert DiffKey(current, target, key, path)[1..] == [];
      }
      SwapConcat(DiffKey(current, target, key, path), DiffKeys(current, target, keys[1..], path));
    }
  }

  // ---------------------------------------------------------------- nothing is missed

  /** One path leads through the other. */
  predicate Comparable(a: seq<string>, b: seq<string>) {
    a <= b || b <= a
  }

  /** Wherever the trees differ, some entry lies on the way there or beyond. */
  lemma {:induction false} DiffersIsCovered(current: Json, target: Json, path: seq<string>, rel: seq<string>)
    returns (i: nat)
    requires At(current, rel) != At(target, rel)
    ensures i < |WalkDiff(current, target, path)| && Comparable(WalkDiff(current, target, path)[i].path, path + rel)
    decreases current, 1, 0
  {
    DiffEmptyIffEqual(current, target, path);
    if !(current.Obj? && target.Obj?) || rel == [] {
      i := 0;
      EntriesAreReal(current, target, path, 0);
      if rel == [] { assert path + rel == path; } else { assert path <= path + rel; }
    } else {
      var keys := SortedKeys(current.fields.Keys + target.fields.Keys);
      assert rel[0] in keys;
      i := KeysCover(current, target, keys, path, rel);
    }
  }

  lemma {:induction false} KeysCover(current: Json, target: Json, keys: seq<string>,
                                     path: seq<string>, rel: seq<string>)
    returns (i: nat)
    requires current.Obj? && target.Obj? && rel != [] && rel[0] in keys && At(current, rel) != At(target, rel)
    requires forall k :: k in keys ==> k in current.fields || k in target.fields
    ensures i < |DiffKeys(current, target, keys, path)|
    ensures Comparable(DiffKeys(current, target, keys, path)[i].path, path + rel)
    decreases current, 0, |keys|
  {
    var key := keys[0];
    var first := DiffKey(current, target, key, path);
    if key != rel[0] {
      i := KeysCover(current, target, keys[1..], path, rel);
      i := i + |first|;
    } else {
      assert path + rel == path + [key] + rel[1..];
      if key in current.fields && key in target.fields {
        i := DiffersIsCovered(current.fields[key], target.fields[key], path + [key], rel[1..]);
      } else {
        i := 0;
        assert path + [key] <= path + rel;
      }
    }
  }
}
