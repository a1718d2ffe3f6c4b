/**
  The realtime database the application talks to, seen as a tree of JSON
  values addressed by slash-separated paths.  `get` on a path answers whether
  a node is there, `set` on a path replaces the subtree at that path, creating
  the missing ancestors (last writer wins).  A store that cannot be reached
  rejects every read and drops every write.
*/
module Store {
  import opened Wrappers

  /** A JSON value as the database keeps it. */
  datatype Node =
    | Num(n: int)
    | Str(s: string)
    | Bool(b: bool)
    | ServerTime                      // the placeholder written by `serverTimestamp()`
    | Obj(fields: map<string, Node>)

  /** `/a/b/c` is the path ["a", "b", "c"]. */
  type Path = seq<string>

  /** The node stored at `p` below `t`, if any. */
  function Get(t: Node, p: Path): (r: Option<Node>)
    ensures p == [] ==> r == Some(t)
    decreases p
  {
    if p == [] then Some(t)
    else match t
      case Obj(f) => if p[0] in f then Get(f[p[0]], p[1..]) else None
      case _ => None
  }

  /** `t` with the subtree at `p` replaced by `v`; missing or primitive
      ancestors become objects. */
  function Put(t: Node, p: Path, v: Node): (r: Node)
    ensures Get(r, p) == Some(v)
    ensures p != [] ==> r.Obj?
    decreases p
  {
    if p == [] then v
    else
      var f := if t.Obj? then t.fields else map[];
      var child := if p[0] in f then f[p[0]] else Obj(map[]);
      Obj(f[p[0] := Put(child, p[1..], v)])
  }

  /** Two paths diverge when neither is a prefix of the other, so writing one
      cannot touch the other. */
  predicate Diverge(p: Path, q: Path) {
    !(p <= q) && !(q <= p)
  }

  /** Reading below a freshly written path reads the written value. */
  lemma {:induction false} GetPutBelow(t: Node, p: Path, v: Node, q: Path)
    ensures Get(Put(t, p, v), p + q) == Get(v, q)
    decreases p
  {
    if p == [] {
      assert p + q == q;
    } else {
      var f := if t.Obj? then t.fields else map[];
      var child := if p[0] in f then f[p[0]] else Obj(map[]);
      assert (p + q)[0] == p[0] && (p + q)[1..] == p[1..] + q;
      GetPutBelow(child, p[1..], v, q);
    }
  }

  /** Reading `p + q` is reading `q` inside the node found at `p`. */
  lemma {:induction false} GetAppend(t: Node, p: Path, q: Path)
    requires Get(t, p).Some?
    ensures Get(t, p + q) == Get(Get(t, p).value, q)
    decreases p
  {
    if p == [] {
      assert p + q == q;
    } else {
      assert (p + q)[0] == p[0] && (p + q)[1..] == p[1..] + q;
      GetAppend(t.fields[p[0]], p[1..], q);
    }
  }

  /** Writing one path leaves every diverging path as it was. */
  lemma {:induction false} GetPutDiverge(t: Node, p: Path, v: Node, q: Path)
    requires Diverge(p, q)
    ensures Get(Put(t, p, v), q) == Get(t, q)
    decreases p
  {
    assert p != [] && q != [];
    var f := if t.Obj? then t.fields else map[];
    var child := if p[0] in f then f[p[0]] else Obj(map[]);
    if p[0] == q[0] {
      assert Diverge(p[1..], q[1..]);
      GetPutDiverge(child, p[1..], v, q[1..]);
      if p[0] !in f {
        assert q[1..] != [];
      }
    }
  }

  /** The database as one client sees it for the duration of a call. */
  datatype Store = Store(root: Node, online: bool)

  /** Why a read was rejected. */
  datatype StoreError = Unreachable

  /** `get(ref(db, p))` followed by `snapshot.exists()`. */
  function Exists(s: Store, p: Path): (r: Result<bool, StoreError>)
    ensures r.Err? <==> !s.online
    ensures r.Ok? ==> (r.value <==> Get(s.root, p).Some?)
  {
    if s.online then Ok(Get(s.root, p).Some?) else Err(Unreachable)
  }

  /** `set(ref(db, p), v)`; a rejected write leaves the store unchanged. */
  function Write(s: Store, p: Path, v: Node): (r: Store)
    ensures r.online == s.online
    ensures s.online ==> Get(r.root, p) == Some(v)
    ensures !s.online ==> r == s
  {
    if s.online then Store(Put(s.root, p, v), true) else s
  }

  /** A write changes nothing on a diverging path. */
  lemma WriteKeepsDiverging(s: Store, p: Path, v: Node, q: Path)
    requires Diverge(p, q)
    ensures Get(Write(s, p, v).root, q) == Get(s.root, q)
  {
    if s.online { GetPutDiverge(s.root, p, v, q); }
  }
}
