/**
 * An abstract YAML document: every scalar leaf is addressed by the path of
 * map keys that leads to it. `node["a"]["b"]` is the path ["a", "b"]; a node
 * `node["a"]` is defined when it is a leaf or some leaf lies below it, and it
 * is then a map exactly when a leaf lies strictly below it. A path that is in
 * the map and also has leaves below it does not arise from a real document;
 * such a node is both a scalar and a map, and reads treat it as either.
 */
module YamlDoc {
  import opened Wrappers

  datatype Scalar = IntValue(i: int) | BoolValue(b: bool) | StringValue(s: string)

  type Path = seq<string>

  type Doc = map<Path, Scalar>

  /** `node[key]` is a defined node. */
  predicate HasChild(node: Doc, key: string) {
    exists p :: p in node && |p| > 0 && p[0] == key
  }

  /** The sub-document `node[key]`. */
  function Child(node: Doc, key: string): (sub: Doc)
    ensures forall p :: p in sub <==> [key] + p in node
    ensures forall p :: p in sub ==> sub[p] == node[[key] + p]
  {
    var paths := set q | q in node && |q| > 0 && q[0] == key :: q[1..];
    assert forall p :: [key] + p in node ==> p in paths by {
      forall p | [key] + p in node ensures p in paths {
        assert ([key] + p)[1..] == p;
      }
    }
    assert forall p :: p in paths ==> [key] + p in node by {
      forall p | p in paths ensures [key] + p in node {
        var q :| q in node && |q| > 0 && q[0] == key && q[1..] == p;
        assert q == [key] + p;
      }
    }
    map p | p in paths :: node[[key] + p]
  }

  /** `node[key] = sub`, for a `node` with nothing yet under `key`. */
  function Graft(node: Doc, key: string, sub: Doc): (r: Doc)
    ensures forall p :: p in r <==> p in node || (|p| > 0 && p[0] == key && p[1..] in sub)
    ensures forall p :: p in node && !(|p| > 0 && p[0] == key) ==> r[p] == node[p]
    ensures forall p :: p in sub ==> r[[key] + p] == sub[p]
  {
    var paths := set p | p in sub :: [key] + p;
    assert forall q :: q in paths <==> |q| > 0 && q[0] == key && q[1..] in sub by {
      forall q ensures q in paths <==> |q| > 0 && q[0] == key && q[1..] in sub {
        if |q| > 0 && q[0] == key && q[1..] in sub {
          assert q == [key] + q[1..];
        }
        if q in paths {
          var p :| p in sub && q == [key] + p;
          assert q[1..] == p;
        }
      }
    }
    node + map q | q in paths :: sub[q[1..]]
  }

  lemma ChildOfGraft(node: Doc, key: string, sub: Doc)
    requires !HasChild(node, key)
    ensures Child(Graft(node, key, sub), key) == sub
    ensures HasChild(Graft(node, key, sub), key) <==> sub != map[]
  {
    var g := Graft(node, key, sub);
    forall p | p in sub ensures [key] + p in g && g[[key] + p] == sub[p] {
      assert ([key] + p)[1..] == p;
      assert [key] + p !in node;
    }
    if sub != map[] {
      var p :| p in sub;
      assert ([key] + p)[0] == key;
    }
  }

  /** Some proper ancestor of `path` is a scalar: subscripting it on the way down throws. */
  predicate Blocked(node: Doc, path: Path) {
    exists i :: 0 <= i < |path| && path[..i] in node
  }

  /** `node[path]` is a map: some leaf lies strictly below it. */
  predicate IsMap(node: Doc, path: Path) {
    exists p :: p in node && |path| < |p| && p[..|path|] == path
  }

  /** Reaching `path` throws nothing, and what is there is a scalar or nothing. */
  predicate Readable(node: Doc, path: Path) {
    !Blocked(node, path) && !IsMap(node, path)
  }

  /** Nothing can block a read of the empty document. */
  lemma EmptyIsReadable()
    ensures forall path :: Readable(map[], path)
  {
  }

  /**
   * Beside a document whose leaves all sit at the top level, a top-level
   * leaf outside the grafted key can be read.
   */
  lemma TopLevelReadable(node: Doc, key: string, sub: Doc, path: Path)
    requires forall p :: p in node ==> |p| == 1
    requires |path| == 1 && path[0] != key
    ensures Readable(Graft(node, key, sub), path)
  {
  }

  /**
   * A leaf read with `as<int>()`. An absent node keeps `current`; a node that
   * is a map, a node of another kind, or a scalar on the way makes the read
   * throw (None).
   */
  function ReadInt(node: Doc, path: Path, current: int): (r: Option<int>)
    ensures !Readable(node, path) ==> r.None?
    ensures Readable(node, path) && path !in node ==> r == Some(current)
    ensures Readable(node, path) && path in node ==>
      (r.Some? <==> node[path].IntValue?) && (r.Some? ==> node[path] == IntValue(r.value))
  {
    if !Readable(node, path) then None
    else if path !in node then Some(current)
    else match node[path]
      case IntValue(i) => Some(i)
      case _ => None
  }

  function ReadBool(node: Doc, path: Path, current: bool): (r: Option<bool>)
    ensures !Readable(node, path) ==> r.None?
    ensures Readable(node, path) && path !in node ==> r == Some(current)
    ensures Readable(node, path) && path in node ==>
      (r.Some? <==> node[path].BoolValue?) && (r.Some? ==> node[path] == BoolValue(r.value))
  {
    if !Readable(node, path) then None
    else if path !in node then Some(current)
    else match node[path]
      case BoolValue(b) => Some(b)
      case _ => None
  }

  function ReadString(node: Doc, path: Path, current: string): (r: Option<string>)
    ensures !Readable(node, path) ==> r.None?
    ensures Readable(node, path) && path !in node ==> r == Some(current)
    ensures Readable(node, path) && path in node ==>
      (r.Some? <==> node[path].StringValue?) && (r.Some? ==> node[path] == StringValue(r.value))
  {
    if !Readable(node, path) then None
    else if path !in node then Some(current)
    else match node[path]
      case StringValue(s) => Some(s)
      case _ => None
  }
}
