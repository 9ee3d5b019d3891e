/** Resolved values written into a copy of the Register tree. */
module RegisterTree {
  import opened Common

  /** A node of the Register: a text, an object, or any other JSON value. */
  datatype Node = Text(text: string) | Object(fields: map<string, Node>) | Scalar

  /** A dotted key, split into its parts. */
  type Path = seq<string>

  /** _resolve. */
  function Resolve(node: Node, path: Path): Option<Node>
    decreases |path|
  {
    if path == [] then Some(node)
    else if node.Object? && path[0] in node.fields then Resolve(node.fields[path[0]], path[1..])
    else None
  }

  /** One assignment of _replace_resolved: walk to the parent, then write; None where it raises. */
  function Assign(node: Node, path: Path, value: string): Option<Node>
    requires path != []
    decreases |path|
  {
    if !node.Object? then None
    else if |path| == 1 then Some(Object(node.fields[path[0] := Text(value)]))
    else if path[0] !in node.fields then None
    else match Assign(node.fields[path[0]], path[1..], value)
      case None => None
      case Some(child) => Some(Object(node.fields[path[0] := child]))
  }

  /** A write goes through exactly when the parent of the key is an object. */
  lemma {:induction false} AssignSucceedsIff(node: Node, path: Path, value: string)
    requires path != []
    ensures var parent := Resolve(node, path[..|path| - 1]);
            Assign(node, path, value).Some? <==> parent.Some? && parent.value.Object?
    decreases |path|
  {
    if |path| > 1 && node.Object? && path[0] in node.fields {
      assert path[..|path| - 1][1..] == path[1..][..|path| - 2];
      AssignSucceedsIff(node.fields[path[0]], path[1..], value);
    } else if |path| > 1 {
      assert path[..|path| - 1][0] == path[0];
    }
  }

  /** The whole update at once: every text under a listed key is replaced, everything else stays. */
  function Update(node: Node, at: Path, values: map<Path, string>): Node
    decreases node
  {
    match node
    case Text(_) => if at in values then Text(values[at]) else node
    case Object(fields) => Object(map k | k in fields :: Update(fields[k], at + [k], values))
    case Scalar => node
  }

  /** A path that a key does not pass cannot be passed one step further on. */
  lemma PrefixDrops(at: Path, k: string, key: Path)
    ensures at + [k] <= key ==> at <= key && key[|at|] == k
  {
    if at + [k] <= key {
      assert forall i :: 0 <= i < |at| ==> (at + [k])[i] == at[i];
      assert (at + [k])[|at|] == k;
    }
  }

  /** A key elsewhere in the tree does not matter here. */
  lemma {:induction false} UpdateElsewhere(node: Node, at: Path, values: map<Path, string>, key: Path, value: string)
    requires !(at <= key)
    ensures Update(node, at, values[key := value]) == Update(node, at, values)
    decreases node
  {
    if node.Object? {
      forall k | k in node.fields
        ensures Update(node.fields[k], at + [k], values[key := value]) == Update(node.fields[k], at + [k], values)
      {
        PrefixDrops(at, k, key);
        UpdateElsewhere(node.fields[k], at + [k], values, key, value);
      }
    }
  }

  /** Writing a key into the updated tree is updating with one more value. */
  lemma {:induction false} AssignIsUpdate(node: Node, at: Path, values: map<Path, string>, path: Path, value: string)
    requires path != [] && Resolve(node, path).Some? && Resolve(node, path).value.Text?
    ensures Assign(Update(node, at, values), path, value) == Some(Update(node, at, values[at + path := value]))
    decreases |path|
  {
    var first := path[0];
    var more := values[at + path := value];
    forall k | k in node.fields && k != first
      ensures Update(node.fields[k], at + [k], more) == Update(node.fields[k], at + [k], values)
    {
      PrefixDrops(at, k, at + path);
      UpdateElsewhere(node.fields[k], at + [k], values, at + path, value);
    }
    if |path| == 1 {
      assert path == [first] && path[1..] == [];
    } else {
      assert at + [first] + path[1..] == at + path;
      AssignIsUpdate(node.fields[first], at + [first], values, path[1..], value);
    }
    assert Update(node, at, more).fields ==
      Update(node, at, values).fields[first := Update(node.fields[first], at + [first], more)];
  }

  lemma {:induction false} UpdateNothing(node: Node, at: Path)
    ensures Update(node, at, map[]) == node
    decreases node
  {
    if node.Object? {
      forall k | k in node.fields
        ensures Update(node.fields[k], at + [k], map[]) == node.fields[k]
      {
        UpdateNothing(node.fields[k], at + [k]);
      }
      assert Update(node, at, map[]).fields == node.fields;
    }
  }

  /** The resolved values as a dictionary; a repeated key keeps its last value. */
  function Collected(resolved: seq<(Path, string)>): map<Path, string> {
    if resolved == [] then map[]
    else Collected(resolved[..|resolved| - 1])[resolved[|resolved| - 1].0 := resolved[|resolved| - 1].1]
  }

  ghost predicate ResolvesToText(node: Node, key: Path) {
    key != [] && Resolve(node, key).Some? && Resolve(node, key).value.Text?
  }

  /** _replace_resolved: when every key resolves to a text it never fails, and it is one simultaneous update. */
  method ReplaceResolved(node: Node, resolved: seq<(Path, string)>) returns (copied: Option<Node>)
    requires forall i :: 0 <= i < |resolved| ==> resolved[i].0 != []
    ensures (forall i :: 0 <= i < |resolved| ==> ResolvesToText(node, resolved[i].0)) ==>
      copied == Some(Update(node, [], Collected(resolved)))
  {
    var current := node;
    ghost var fine := forall i :: 0 <= i < |resolved| ==> ResolvesToText(node, resolved[i].0);
    UpdateNothing(node, []);
    var k := 0;
    while k < |resolved|
      invariant 0 <= k <= |resolved|
      invariant fine ==> current == Update(node, [], Collected(resolved[..k]))
    {
      var (key, value) := resolved[k];
      if fine {
        assert ResolvesToText(node, resolved[k].0);
        AssignIsUpdate(node, [], Collected(resolved[..k]), key, value);
        assert [] + key == key && resolved[..k + 1][..k] == resolved[..k];
      }
      var next := Assign(current, key, value);
      if next.None? {
        return None;
      }
      current := next.value;
      k := k + 1;
    }
    assert resolved[..k] == resolved;
    copied := Some(current);
  }

  /** What the update leaves at a path. */
  lemma {:induction false} ResolveUpdated(node: Node, at: Path, values: map<Path, string>, path: Path)
    ensures Resolve(Update(node, at, values), path)
         == match Resolve(node, path)
            case None => None
            case Some(found) => Some(Update(found, at + path, values))
    decreases |path|
  {
    if path == [] {
      assert at + path == at;
    } else if node.Object? && path[0] in node.fields {
      assert at + [path[0]] + path[1..] == at + path;
      ResolveUpdated(node.fields[path[0]], at + [path[0]], values, path[1..]);
    }
  }

  /** Every listed key resolves to its replacement afterwards. */
  lemma KeysResolve(node: Node, values: map<Path, string>, key: Path)
    requires key in values && ResolvesToText(node, key)
    ensures Resolve(Update(node, [], values), key) == Some(Text(values[key]))
  {
    ResolveUpdated(node, [], values, key);
    assert [] + key == key;
  }

  lemma {:induction false} UpdateUnrelated(node: Node, at: Path, values: map<Path, string>)
    requires forall key :: key in values ==> !(at <= key)
    ensures Update(node, at, values) == node
    decreases node
  {
    if node.Object? {
      forall k | k in node.fields
        ensures Update(node.fields[k], at + [k], values) == node.fields[k]
      {
        forall key | key in values
          ensures !(at + [k] <= key)
        {
          PrefixDrops(at, k, key);
        }
        UpdateUnrelated(node.fields[k], at + [k], values);
      }
      assert Update(node, at, values).fields == node.fields;
    }
  }

  /** Every path that is neither a listed key nor leads to one is unchanged. */
  lemma OthersUnchanged(node: Node, values: map<Path, string>, path: Path)
    requires forall key :: key in values ==> !(path <= key)
    ensures Resolve(Update(node, [], values), path) == Resolve(node, path)
  {
    ResolveUpdated(node, [], values, path);
    assert [] + path == path;
    if Resolve(node, path).Some? {
      UpdateUnrelated(Resolve(node, path).value, path, values);
    }
  }

  /** Two keys that resolve to texts are never one a proper prefix of the other. */
  lemma {:induction false} TextsAreLeaves(node: Node, short: Path, long: Path)
    requires ResolvesToText(node, short) && ResolvesToText(node, long) && short <= long
    ensures short == long
    decreases |short|
  {
    var child := node.fields[short[0]];
    assert Resolve(node, short) == Resolve(child, short[1..]) && Resolve(node, long) == Resolve(child, long[1..]);
    if |short| > 1 {
      TextsAreLeaves(child, short[1..], long[1..]);
      assert short == [short[0]] + short[1..] && long == [long[0]] + long[1..];
    } else {
      assert short[1..] == [];
      assert long[1..] == [];
    }
  }

  lemma {:induction false} CollectedIs(resolved: seq<(Path, string)>, i: nat)
    requires i < |resolved| && forall a, b :: 0 <= a < b < |resolved| ==> resolved[a].0 != resolved[b].0
    ensures resolved[i].0 in Collected(resolved) && Collected(resolved)[resolved[i].0] == resolved[i].1
    decreases |resolved|
  {
    if i < |resolved| - 1 {
      CollectedIs(resolved[..|resolved| - 1], i);
    }
  }

  lemma {:induction false} CollectedFrom(resolved: seq<(Path, string)>, key: Path)
    requires key in Collected(resolved)
    ensures exists i :: 0 <= i < |resolved| && resolved[i] == (key, Collected(resolved)[key])
  {
    var n := |resolved| - 1;
    if key != resolved[n].0 {
      CollectedFrom(resolved[..n], key);
      var i :| 0 <= i < n && resolved[..n][i] == (key, Collected(resolved[..n])[key]);
      assert resolved[i] == (key, Collected(resolved)[key]);
    }
  }

  /** The result does not depend on the order of the keys. */
  lemma OrderDoesNotMatter(a: seq<(Path, string)>, b: seq<(Path, string)>, node: Node)
    requires forall i, j :: 0 <= i < j < |a| ==> a[i].0 != a[j].0
    requires forall i, j :: 0 <= i < j < |b| ==> b[i].0 != b[j].0
    requires forall x :: x in a <==> x in b
    ensures Update(node, [], Collected(a)) == Update(node, [], Collected(b))
  {
    forall key
      ensures key in Collected(a) <==> key in Collected(b)
      ensures key in Collected(a) ==> Collected(a)[key] == Collected(b)[key]
    {
      if key in Collected(a) {
        CollectedFrom(a, key);
        assert (key, Collected(a)[key]) in b;
        var i :| 0 <= i < |b| && b[i] == (key, Collected(a)[key]);
        CollectedIs(b, i);
      }
      if key in Collected(b) {
        CollectedFrom(b, key);
        assert (key, Collected(b)[key]) in a;
        var i :| 0 <= i < |a| && a[i] == (key, Collected(b)[key]);
        CollectedIs(a, i);
      }
    }
    assert Collected(a) == Collected(b);
  }
}
