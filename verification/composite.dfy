/**
 * The Composite example: folders and files in a tree, each folder holding a
 * dictionary of children keyed by name, with path lookup from the module's
 * `root` folder and in-place `move` and `delete`.
 *
 * Python objects are numbered in order of creation; the state is the list of
 * their fields, object `0` being `root`.  A `children` dictionary keeps its
 * insertion order, which is what printing it shows.
 */
module Composite {
  import opened Common
  import opened PyStr

  // ---------------------------------------------------------------------------
  // Dictionaries with insertion order

  /** A `dict` from names to objects: its keys in insertion order and its entries. */
  datatype Dict = Dict(keys: seq<string>, vals: map<string, nat>)

  const Empty: Dict := Dict([], map[])

  predicate Distinct(ks: seq<string>) {
    forall i, j :: 0 <= i < j < |ks| ==> ks[i] != ks[j]
  }

  /** The key list names each entry exactly once. */
  predicate DictValid(d: Dict) {
    && Distinct(d.keys)
    && (forall k :: k in d.vals ==> k in d.keys)
    && (forall i :: 0 <= i < |d.keys| ==> d.keys[i] in d.vals)
  }

  /** `d[k] = v`: a new key goes to the end, an existing one keeps its place. */
  function Put(d: Dict, k: string, v: nat): (r: Dict)
    ensures r.vals == d.vals[k := v]
    ensures k in d.vals ==> r.keys == d.keys
    ensures k !in d.vals ==> r.keys == d.keys + [k]
    ensures DictValid(d) ==> DictValid(r)
  {
    if k in d.vals then Dict(d.keys, d.vals[k := v]) else Dict(d.keys + [k], d.vals[k := v])
  }

  /** The key list without `k`. */
  function Without(ks: seq<string>, k: string): (r: seq<string>)
    ensures k !in r
    ensures forall x :: x in r <==> x in ks && x != k
    decreases |ks|
  {
    if ks == [] then []
    else
      var rest := Without(ks[1..], k);
      assert forall x :: x in ks[1..] ==> x in ks;
      assert ks == [ks[0]] + ks[1..];
      if ks[0] == k then rest else [ks[0]] + rest
  }

  lemma {:induction false} WithoutDistinct(ks: seq<string>, k: string)
    ensures Distinct(ks) ==> Distinct(Without(ks, k))
    decreases |ks|
  {
    if ks != [] && Distinct(ks) {
      assert Distinct(ks[1..]) by {
        forall i, j | 0 <= i < j < |ks| - 1 ensures ks[1..][i] != ks[1..][j] {
          assert ks[1..][i] == ks[i + 1] && ks[1..][j] == ks[j + 1];
        }
      }
      WithoutDistinct(ks[1..], k);
      assert ks[0] !in ks[1..] by {
        forall j | 0 <= j < |ks| - 1 ensures ks[1..][j] != ks[0] {
          assert ks[1..][j] == ks[j + 1];
        }
      }
    }
  }

  /** Why an operation of the example raises. */
  datatype FsError =
    | KeyError(key: string)        // no child of that name
    | NoChildren(name: string)     // `AttributeError`: a file has no `children`
    | NoParent(name: string)       // `AttributeError`: `parent` was never set

  /** `del d[k]` */
  function Del(d: Dict, k: string): (r: Result<Dict, FsError>)
    ensures r.Ok? <==> k in d.vals
    ensures r.Ok? ==> r.value.vals == d.vals - {k} && k !in r.value.keys
    ensures r.Ok? ==> r.value.keys == Without(d.keys, k)
    ensures r.Ok? && DictValid(d) ==> DictValid(r.value)
  {
    if k in d.vals then
      var ks := Without(d.keys, k);
      WithoutDistinct(d.keys, k);
      assert forall i :: 0 <= i < |ks| ==> ks[i] in ks;
      Ok(Dict(ks, d.vals - {k}))
    else Err(KeyError(k))
  }

  // ---------------------------------------------------------------------------
  // The objects

  datatype Kind = FolderKind | FileKind(contents: string)

  /** The fields of one object; a file's `children` stays empty and is never read. */
  datatype Node = Node(name: string, kind: Kind, parent: Option<nat>, children: Dict)

  /** Every reference names an existing object, every parent is a folder, and no
      folder holds two children of one name. */
  predicate ValidNodes(nodes: seq<Node>) {
    && |nodes| >= 1
    && nodes[0].kind.FolderKind?
    && forall i :: 0 <= i < |nodes| ==> NodeValid(nodes, nodes[i])
  }

  predicate NodeValid(nodes: seq<Node>, n: Node) {
    && DictValid(n.children)
    && (n.kind.FileKind? ==> n.children == Empty)
    && (forall k :: k in n.children.vals ==> n.children.vals[k] < |nodes|)
    && (n.parent.Some? ==> n.parent.value < |nodes| && nodes[n.parent.value].kind.FolderKind?)
  }

  /** Following `names` from object `node`, as the loop of `get_path` does. */
  function Resolve(nodes: seq<Node>, node: nat, names: seq<string>): (r: Result<nat, FsError>)
    requires ValidNodes(nodes) && node < |nodes|
    ensures r.Ok? ==> r.value < |nodes|
    ensures names == [] ==> r == Ok(node)
    decreases |names|
  {
    if names == [] then Ok(node)
    else if nodes[node].kind.FileKind? then Err(NoChildren(nodes[node].name))
    else if names[0] !in nodes[node].children.vals then Err(KeyError(names[0]))
    else
      assert NodeValid(nodes, nodes[node]);
      Resolve(nodes, nodes[node].children.vals[names[0]], names[1..])
  }

  /** `get_path(path)`: split at `/`, drop the first piece, walk down from `root`. */
  function GetPathOf(nodes: seq<Node>, path: string): (r: Result<nat, FsError>)
    requires ValidNodes(nodes)
    ensures r.Ok? ==> r.value < |nodes|
  {
    Resolve(nodes, 0, Split(path, '/')[1..])
  }

  /** `folder.add_child(child)`: set the child's `parent`, then enter it under its name. */
  function AddChildOf(nodes: seq<Node>, folder: nat, child: nat): seq<Node>
    requires folder < |nodes| && child < |nodes|
  {
    var n1 := nodes[child := nodes[child].(parent := Some(folder))];
    n1[folder := n1[folder].(children := Put(n1[folder].children, nodes[child].name, child))]
  }

  /** `del self.parent.children[self.name]`, as `delete` and `move` both do. */
  function Unlink(nodes: seq<Node>, c: nat): (r: Result<seq<Node>, FsError>)
    requires ValidNodes(nodes) && c < |nodes|
    ensures r.Ok? ==> |r.value| == |nodes|
  {
    match nodes[c].parent
    case None => Err(NoParent(nodes[c].name))
    case Some(p) =>
      assert NodeValid(nodes, nodes[c]);
      match Del(nodes[p].children, nodes[c].name)
      case Err(e) => Err(e)
      case Ok(d) => Ok(nodes[p := nodes[p].(children := d)])
  }

  /** `component.move(new_path)`: resolve the target, unlink, enter the component in
      the target's children, then point its `parent` at the target.  A target that
      is a file raises after the unlinking. */
  function MoveOf(nodes: seq<Node>, c: nat, path: string): (Result<(), FsError>, seq<Node>)
    requires ValidNodes(nodes) && c < |nodes|
  {
    match GetPathOf(nodes, path)
    case Err(e) => (Err(e), nodes)
    case Ok(t) =>
      match Unlink(nodes, c)
      case Err(e) => (Err(e), nodes)
      case Ok(n1) =>
        if n1[t].kind.FileKind? then (Err(NoChildren(n1[t].name)), n1)
        else (Ok(()), Enter(n1, t, c, nodes[c].name))
  }

  /** `new_folder.children[name] = self; self.parent = new_folder` */
  function Enter(nodes: seq<Node>, t: nat, c: nat, name: string): seq<Node>
    requires t < |nodes| && c < |nodes|
  {
    var n2 := nodes[t := nodes[t].(children := Put(nodes[t].children, name, c))];
    n2[c := n2[c].(parent := Some(t))]
  }

  // ---------------------------------------------------------------------------
  // What the operations promise

  /** `""` and `"/"`-free paths: the empty path names `root`. */
  lemma EmptyPathIsRoot(nodes: seq<Node>)
    requires ValidNodes(nodes)
    ensures GetPathOf(nodes, "") == Ok(0)
  {
    FindAbsent("", '/');
  }

  /** A path walks down one name at a time: a folder's child of that name is the next
      object, a missing name raises `KeyError`, and a file stops the walk. */
  lemma ResolveStep(nodes: seq<Node>, node: nat, name: string, rest: seq<string>)
    requires ValidNodes(nodes) && node < |nodes|
    ensures nodes[node].kind.FileKind? ==> Resolve(nodes, node, [name] + rest) == Err(NoChildren(nodes[node].name))
    ensures nodes[node].kind.FolderKind? && name !in nodes[node].children.vals ==>
      Resolve(nodes, node, [name] + rest) == Err(KeyError(name))
    ensures nodes[node].kind.FolderKind? && name in nodes[node].children.vals ==>
      Resolve(nodes, node, [name] + rest) == Resolve(nodes, nodes[node].children.vals[name], rest)
  {
    assert ([name] + rest)[1..] == rest;
  }

  lemma NodeValidGrows(nodes: seq<Node>, nodes': seq<Node>, n: Node)
    requires |nodes| <= |nodes'|
    requires forall i :: 0 <= i < |nodes| ==> nodes'[i].kind == nodes[i].kind
    requires NodeValid(nodes, n)
    ensures NodeValid(nodes', n)
  {
  }

  /** `add_child` points the child at the folder and enters it under its name,
      replacing a same-named entry; no other object changes, and the state stays
      valid. */
  lemma AddChildEffect(nodes: seq<Node>, folder: nat, child: nat)
    requires ValidNodes(nodes) && folder < |nodes| && child < |nodes| && nodes[folder].kind.FolderKind?
    ensures |AddChildOf(nodes, folder, child)| == |nodes|
    ensures AddChildOf(nodes, folder, child)[child].parent == Some(folder)
    ensures child != folder ==> AddChildOf(nodes, folder, child)[child] == nodes[child].(parent := Some(folder))
    ensures AddChildOf(nodes, folder, child)[folder].name == nodes[folder].name
    ensures AddChildOf(nodes, folder, child)[folder].kind == nodes[folder].kind
    ensures AddChildOf(nodes, folder, child)[folder].children ==
            Put(nodes[folder].children, nodes[child].name, child)
    ensures AddChildOf(nodes, folder, child)[folder].children.vals ==
            nodes[folder].children.vals[nodes[child].name := child]
    ensures forall i :: 0 <= i < |nodes| && i != folder && i != child ==> AddChildOf(nodes, folder, child)[i] == nodes[i]
    ensures ValidNodes(AddChildOf(nodes, folder, child))
  {
    var r := AddChildOf(nodes, folder, child);
    forall i | 0 <= i < |r| ensures NodeValid(r, r[i]) {
      assert NodeValid(nodes, nodes[i]);
      assert r[i].kind == nodes[i].kind;
    }
  }

  /** `delete` unlinks the component's name from its parent's children and changes
      nothing else, its own `parent` included. */
  lemma UnlinkEffect(nodes: seq<Node>, c: nat)
    requires ValidNodes(nodes) && c < |nodes|
    ensures Unlink(nodes, c).Ok? <==> nodes[c].parent.Some? && nodes[c].name in nodes[nodes[c].parent.value].children.vals
    ensures Unlink(nodes, c).Ok? ==>
      var p := nodes[c].parent.value;
      && Unlink(nodes, c).value[p].children.vals == nodes[p].children.vals - {nodes[c].name}
      && Unlink(nodes, c).value[p].children.keys == Without(nodes[p].children.keys, nodes[c].name)
      && (forall i :: 0 <= i < |nodes| && i != p ==> Unlink(nodes, c).value[i] == nodes[i])
      && Unlink(nodes, c).value[c].parent == nodes[c].parent
      && ValidNodes(Unlink(nodes, c).value)
  {
    if Unlink(nodes, c).Ok? {
      var p := nodes[c].parent.value;
      var r := Unlink(nodes, c).value;
      assert NodeValid(nodes, nodes[p]);
      forall i | 0 <= i < |r| ensures NodeValid(r, r[i]) {
        assert NodeValid(nodes, nodes[i]);
      }
    }
  }

  /** A move whose target cannot be resolved changes nothing. */
  lemma MoveResolvesFirst(nodes: seq<Node>, c: nat, path: string)
    requires ValidNodes(nodes) && c < |nodes|
    requires GetPathOf(nodes, path).Err?
    ensures MoveOf(nodes, c, path) == (Err(GetPathOf(nodes, path).error), nodes)
  {
  }

  /** A move to a file raises after the unlinking, so the component is in no folder's
      children any more while its `parent` still names the old folder. */
  lemma MoveToFileDetaches(nodes: seq<Node>, c: nat, path: string)
    requires ValidNodes(nodes) && c < |nodes|
    requires GetPathOf(nodes, path).Ok? && nodes[GetPathOf(nodes, path).value].kind.FileKind?
    requires Unlink(nodes, c).Ok?
    ensures MoveOf(nodes, c, path).0.Err?
    ensures MoveOf(nodes, c, path).1 == Unlink(nodes, c).value
    ensures nodes[c].name !in MoveOf(nodes, c, path).1[nodes[c].parent.value].children.vals
    ensures MoveOf(nodes, c, path).1[c].parent == nodes[c].parent
  {
    UnlinkEffect(nodes, c);
    var t := GetPathOf(nodes, path).value;
    var p := nodes[c].parent.value;
    assert t != p by {
      assert NodeValid(nodes, nodes[c]);
    }
  }

  /** Entering a component in a folder points it at the folder, enters it under
      the name, changes no other object, and keeps the state valid. */
  lemma EnterEffect(nodes: seq<Node>, t: nat, c: nat, name: string)
    requires ValidNodes(nodes) && t < |nodes| && c < |nodes| && nodes[t].kind.FolderKind?
    requires nodes[c].name == name
    ensures |Enter(nodes, t, c, name)| == |nodes|
    ensures Enter(nodes, t, c, name)[c].parent == Some(t)
    ensures c != t ==> Enter(nodes, t, c, name)[c] == nodes[c].(parent := Some(t))
    ensures Enter(nodes, t, c, name)[t].name == nodes[t].name && Enter(nodes, t, c, name)[t].kind == nodes[t].kind
    ensures Enter(nodes, t, c, name)[t].children == Put(nodes[t].children, name, c)
    ensures Enter(nodes, t, c, name)[t].children.vals == nodes[t].children.vals[name := c]
    ensures forall i :: 0 <= i < |nodes| && i != t && i != c ==> Enter(nodes, t, c, name)[i] == nodes[i]
    ensures ValidNodes(Enter(nodes, t, c, name))
  {
    var r := Enter(nodes, t, c, name);
    forall i | 0 <= i < |r| ensures NodeValid(r, r[i]) {
      assert NodeValid(nodes, nodes[i]);
      assert r[i].kind == nodes[i].kind;
    }
  }

  /** A move that completes takes the name out of the old parent `p`'s children and
      enters it, pointing at the component, in the target `t`'s; the component's
      `parent` is the target; nothing else changes and the state stays valid.  When
      `p` and `t` are one folder, the name goes to the end of its key order. */
  lemma MoveEffect(nodes: seq<Node>, c: nat, path: string, p: nat, t: nat, r: seq<Node>)
    requires ValidNodes(nodes) && c < |nodes|
    requires nodes[c].parent == Some(p) && GetPathOf(nodes, path) == Ok(t)
    requires MoveOf(nodes, c, path) == (Ok(()), r)
    ensures |r| == |nodes|
    ensures r[c].parent == Some(t)
    ensures nodes[c].name in r[t].children.vals && r[t].children.vals[nodes[c].name] == c
    ensures p != t ==> r[p].children.vals == nodes[p].children.vals - {nodes[c].name}
    ensures r[t].children.vals == nodes[t].children.vals[nodes[c].name := c]
    ensures p != t ==> r[p].children.keys == Without(nodes[p].children.keys, nodes[c].name)
    ensures p != t ==> r[t].children == Put(nodes[t].children, nodes[c].name, c)
    ensures p == t ==> r[t].children.keys == Without(nodes[t].children.keys, nodes[c].name) + [nodes[c].name]
    ensures c != p && c != t ==> r[c] == nodes[c].(parent := Some(t))
    ensures forall i :: 0 <= i < |nodes| && i != p && i != t && i != c ==> r[i] == nodes[i]
    ensures ValidNodes(r)
  {
    UnlinkEffect(nodes, c);
    var n1 := Unlink(nodes, c).value;
    EnterEffect(n1, t, c, nodes[c].name);
  }

  /** Every call of `move` leaves a valid state, whether it completes or raises. */
  lemma MoveKeepsValid(nodes: seq<Node>, c: nat, path: string)
    requires ValidNodes(nodes) && c < |nodes|
    ensures ValidNodes(MoveOf(nodes, c, path).1)
  {
    UnlinkEffect(nodes, c);
    if GetPathOf(nodes, path).Ok? && Unlink(nodes, c).Ok? {
      var t := GetPathOf(nodes, path).value;
      var n1 := Unlink(nodes, c).value;
      if n1[t].kind.FolderKind? {
        EnterEffect(n1, t, c, nodes[c].name);
      }
    }
  }

  // ---------------------------------------------------------------------------
  // The objects in the heap

  /** All objects of the example, `root` first. */
  class FileSystem {
    var nodes: seq<Node>

    predicate Valid()
      reads this
    {
      ValidNodes(nodes)
    }

    /** `root = Folder('')` */
    constructor ()
      ensures Valid() && nodes == [Node("", FolderKind, None, Empty)]
    {
      nodes := [Node("", FolderKind, None, Empty)];
    }

    /** `Folder(name)` and `File(name, contents)`: a new object with no parent. */
    method Create(name: string, kind: Kind) returns (id: nat)
      requires Valid()
      modifies this
      ensures Valid() && id == |old(nodes)| && nodes == old(nodes) + [Node(name, kind, None, Empty)]
    {
      id := |nodes|;
      nodes := nodes + [Node(name, kind, None, Empty)];
      forall i | 0 <= i < |nodes| ensures NodeValid(nodes, nodes[i]) {
        if i < id {
          assert NodeValid(old(nodes), old(nodes)[i]);
        }
      }
    }

    /** `folder.add_child(child)` */
    method AddChild(folder: nat, child: nat)
      requires Valid() && folder < |nodes| && child < |nodes| && nodes[folder].kind.FolderKind?
      modifies this
      ensures Valid() && nodes == AddChildOf(old(nodes), folder, child)
    {
      AddChildEffect(nodes, folder, child);
      var name := nodes[child].name;
      nodes := nodes[child := nodes[child].(parent := Some(folder))];
      nodes := nodes[folder := nodes[folder].(children := Put(nodes[folder].children, name, child))];
    }

    /** `get_path(path)`: the loop over the names after the first `/`. */
    method GetPath(path: string) returns (r: Result<nat, FsError>)
      requires Valid()
      ensures r == GetPathOf(nodes, path)
    {
      var names := Split(path, '/')[1..];
      var node: nat := 0;
      var i := 0;
      while i < |names|
        invariant 0 <= i <= |names| && node < |nodes|
        invariant Resolve(nodes, 0, names) == Resolve(nodes, node, names[i..])
      {
        var name := names[i];
        ResolveStep(nodes, node, name, names[i + 1..]);
        assert names[i..] == [name] + names[i + 1..];
        if nodes[node].kind.FileKind? {
          return Err(NoChildren(nodes[node].name));
        }
        if name !in nodes[node].children.vals {
          return Err(KeyError(name));
        }
        node := nodes[node].children.vals[name];
        i := i + 1;
      }
      r := Ok(node);
    }

    /** `component.delete()` */
    method Delete(c: nat) returns (r: Result<(), FsError>)
      requires Valid() && c < |nodes|
      modifies this
      ensures Valid()
      ensures Unlink(old(nodes), c).Ok? ==> r.Ok? && nodes == Unlink(old(nodes), c).value
      ensures Unlink(old(nodes), c).Err? ==> r == Err(Unlink(old(nodes), c).error) && nodes == old(nodes)
    {
      UnlinkEffect(nodes, c);
      var u := Unlink(nodes, c);
      match u
      case Err(e) =>
        r := Err(e);
      case Ok(n) =>
        nodes := n;
        r := Ok(());
    }

    /** `component.move(new_path)` */
    method Move(c: nat, path: string) returns (r: Result<(), FsError>)
      requires Valid() && c < |nodes|
      modifies this
      ensures Valid()
      ensures (r, nodes) == MoveOf(old(nodes), c, path)
    {
      var target := GetPath(path);
      if target.Err? {
        return Err(target.error);
      }
      var t := target.value;
      var d := Delete(c);
      if d.Err? {
        return Err(d.error);
      }
      if nodes[t].kind.FileKind? {
        return Err(NoChildren(nodes[t].name));
      }
      MoveKeepsValid(old(nodes), c, path);
      var name := nodes[c].name;
      nodes := nodes[t := nodes[t].(children := Put(nodes[t].children, name, c))];
      nodes := nodes[c := nodes[c].(parent := Some(t))];
      r := Ok(());
    }
  }

  /** The script's first path names `folder1/folder11` below `root`. */
  lemma FirstPath()
    ensures Split("/folder1/folder11", '/')[1..] == ["folder1", "folder11"]
  {
    assert "/folder1/folder11" == "" + ['/'] + "folder1" + ['/'] + "folder11";
    SplitThree("", "folder1", "folder11", '/');
  }

  /** The script's second path names `folder1` below `root`. */
  lemma SecondPath()
    ensures Split("/folder1", '/')[1..] == ["folder1"]
  {
    assert "/folder1" == "" + ['/'] + "folder1";
    SplitTwo("", "folder1", '/');
  }

  /** A path of two names from `root`. */
  lemma ResolveTwo(nodes: seq<Node>, a: string, b: string, x: nat, y: nat)
    requires ValidNodes(nodes) && x < |nodes|
    requires nodes[0].kind.FolderKind? && a in nodes[0].children.vals && nodes[0].children.vals[a] == x
    requires nodes[x].kind.FolderKind? && b in nodes[x].children.vals && nodes[x].children.vals[b] == y
    ensures Resolve(nodes, 0, [a, b]) == Ok(y)
  {
    ResolveStep(nodes, 0, a, [b]);
    assert [a] + [b] == [a, b];
    ResolveStep(nodes, x, b, []);
    assert [b] + [] == [b];
  }

  /** The folders `root`, `folder1`, `folder2` and `folder11` after lines 73-91. */
  predicate SetUpFacts(nodes: seq<Node>) {
    && |nodes| == 6
    && nodes[0].children == Dict(["folder1", "folder2"], map["folder1" := 1, "folder2" := 2])
    && nodes[1].kind.FolderKind? && nodes[1].children == Dict(["folder11"], map["folder11" := 3])
    && nodes[2].name == "folder2" && nodes[2].parent == Some(0)
    && nodes[2].children == Dict(["file21"], map["file21" := 5])
    && nodes[3].kind.FolderKind? && nodes[3].children == Dict(["file111"], map["file111" := 4])
    && nodes[5].name == "file21" && nodes[5].parent == Some(2)
  }

  /** After line 94: `folder2` has moved into `folder11`. */
  predicate FirstMoveFacts(nodes: seq<Node>) {
    && |nodes| == 6
    && nodes[0].children == Dict(["folder1"], map["folder1" := 1])
    && nodes[1].kind.FolderKind? && nodes[1].children == Dict(["folder11"], map["folder11" := 3])
    && nodes[2].children == Dict(["file21"], map["file21" := 5])
    && nodes[3].children.keys == ["file111", "folder2"]
    && nodes[5].name == "file21" && nodes[5].parent == Some(2)
  }

  /** After line 98: `file21` has moved into `folder1`. */
  predicate SecondMoveFacts(nodes: seq<Node>) {
    && |nodes| == 6
    && nodes[0].children.keys == ["folder1"]
    && nodes[1].children.keys == ["folder11", "file21"]
    && nodes[2].children.keys == []
    && nodes[3].children.keys == ["file111", "folder2"]
  }

  /** Between the two halves of line 94: `folder2` is out of `root`'s children. */
  predicate DetachedFacts(nodes: seq<Node>) {
    && |nodes| == 6
    && nodes[0].children == Dict(["folder1"], map["folder1" := 1])
    && nodes[1].kind.FolderKind? && nodes[1].children == Dict(["folder11"], map["folder11" := 3])
    && nodes[2].name == "folder2"
    && nodes[2].children == Dict(["file21"], map["file21" := 5])
    && nodes[3].kind.FolderKind? && nodes[3].children == Dict(["file111"], map["file111" := 4])
    && nodes[5].name == "file21" && nodes[5].parent == Some(2)
  }

  lemma FirstUnlink(nodes: seq<Node>)
    requires ValidNodes(nodes) && SetUpFacts(nodes)
    ensures Unlink(nodes, 2).Ok?
    ensures ValidNodes(Unlink(nodes, 2).value) && DetachedFacts(Unlink(nodes, 2).value)
  {
    UnlinkEffect(nodes, 2);
    var n1 := Unlink(nodes, 2).value;
    assert Without(["folder1", "folder2"], "folder2") == ["folder1"];
    assert map["folder1" := 1, "folder2" := 2] - {"folder2"} == map["folder1" := 1];
    assert n1[1] == nodes[1] && n1[2] == nodes[2] && n1[3] == nodes[3] && n1[5] == nodes[5];
  }

  lemma FirstEnter(n1: seq<Node>)
    requires ValidNodes(n1) && DetachedFacts(n1)
    ensures FirstMoveFacts(Enter(n1, 3, 2, "folder2"))
  {
    EnterEffect(n1, 3, 2, "folder2");
    var r := Enter(n1, 3, 2, "folder2");
    assert r[3].children == Put(Dict(["file111"], map["file111" := 4]), "folder2", 2);
  }

  lemma FirstMove(nodes: seq<Node>, path: string)
    requires ValidNodes(nodes) && SetUpFacts(nodes)
    requires Split(path, '/')[1..] == ["folder1", "folder11"]
    ensures MoveOf(nodes, 2, path).0.Ok?
    ensures FirstMoveFacts(MoveOf(nodes, 2, path).1)
  {
    ResolveTwo(nodes, "folder1", "folder11", 1, 3);
    assert GetPathOf(nodes, path) == Ok(3);
    FirstUnlink(nodes);
    var n1 := Unlink(nodes, 2).value;
    FirstEnter(n1);
  }

  /** Between the two halves of line 98: `file21` is out of `folder2`'s children. */
  predicate FileDetachedFacts(nodes: seq<Node>) {
    && |nodes| == 6
    && nodes[0].children.keys == ["folder1"]
    && nodes[1].kind.FolderKind? && nodes[1].children == Dict(["folder11"], map["folder11" := 3])
    && nodes[2].children.keys == []
    && nodes[3].children.keys == ["file111", "folder2"]
    && nodes[5].name == "file21"
  }

  lemma SecondUnlink(nodes: seq<Node>)
    requires ValidNodes(nodes) && FirstMoveFacts(nodes)
    ensures Unlink(nodes, 5).Ok?
    ensures ValidNodes(Unlink(nodes, 5).value) && FileDetachedFacts(Unlink(nodes, 5).value)
  {
    UnlinkEffect(nodes, 5);
    var n1 := Unlink(nodes, 5).value;
    assert Without(["file21"], "file21") == [];
    assert n1[0] == nodes[0] && n1[1] == nodes[1] && n1[3] == nodes[3] && n1[5] == nodes[5];
  }

  lemma SecondEnter(n1: seq<Node>)
    requires ValidNodes(n1) && FileDetachedFacts(n1)
    ensures SecondMoveFacts(Enter(n1, 1, 5, "file21"))
  {
    EnterEffect(n1, 1, 5, "file21");
  }

  lemma SecondMove(nodes: seq<Node>, path: string)
    requires ValidNodes(nodes) && FirstMoveFacts(nodes)
    requires Split(path, '/')[1..] == ["folder1"]
    ensures MoveOf(nodes, 5, path).0.Ok?
    ensures SecondMoveFacts(MoveOf(nodes, 5, path).1)
  {
    ResolveStep(nodes, 0, "folder1", []);
    assert ["folder1"] + [] == ["folder1"];
    assert GetPathOf(nodes, path) == Ok(1);
    SecondUnlink(nodes);
    SecondEnter(Unlink(nodes, 5).value);
  }

  /** Lines 73-91 */
  method DemoSetUp() returns (fs: FileSystem)
    ensures fresh(fs) && fs.Valid() && SetUpFacts(fs.nodes)
  {
    fs := DemoFolders();
    var folder11 := DemoFolder11(fs);
    DemoFiles(fs);
  }

  /** Lines 74-79 */
  method DemoFolders() returns (fs: FileSystem)
    ensures fresh(fs) && fs.Valid() && |fs.nodes| == 3
    ensures fs.nodes[0].children == Dict(["folder1", "folder2"], map["folder1" := 1, "folder2" := 2])
    ensures fs.nodes[1].kind.FolderKind? && fs.nodes[1].children == Empty
    ensures fs.nodes[2] == Node("folder2", FolderKind, Some(0), Empty)
  {
    fs := new FileSystem();
    var folder1 := fs.Create("folder1", FolderKind);
    var folder2 := fs.Create("folder2", FolderKind);
    ghost var s := fs.nodes;
    fs.AddChild(0, folder1);
    AddChildEffect(s, 0, folder1);
    s := fs.nodes;
    fs.AddChild(0, folder2);
    AddChildEffect(s, 0, folder2);
  }

  /** Lines 82-83 */
  method DemoFolder11(fs: FileSystem) returns (folder11: nat)
    requires fs.Valid() && |fs.nodes| == 3
    requires fs.nodes[1].kind.FolderKind? && fs.nodes[1].children == Empty
    modifies fs
    ensures fs.Valid() && |fs.nodes| == 4 && folder11 == 3
    ensures fs.nodes[0] == old(fs.nodes[0]) && fs.nodes[2] == old(fs.nodes[2])
    ensures fs.nodes[1].kind.FolderKind? && fs.nodes[1].children == Dict(["folder11"], map["folder11" := 3])
    ensures fs.nodes[3].kind.FolderKind? && fs.nodes[3].children == Empty
  {
    folder11 := fs.Create("folder11", FolderKind);
    ghost var s := fs.nodes;
    fs.AddChild(1, folder11);
    AddChildEffect(s, 1, folder11);
  }

  /** Lines 86-91 */
  method DemoFiles(fs: FileSystem)
    requires fs.Valid() && |fs.nodes| == 4
    requires fs.nodes[0].children == Dict(["folder1", "folder2"], map["folder1" := 1, "folder2" := 2])
    requires fs.nodes[1].kind.FolderKind? && fs.nodes[1].children == Dict(["folder11"], map["folder11" := 3])
    requires fs.nodes[2] == Node("folder2", FolderKind, Some(0), Empty)
    requires fs.nodes[3].kind.FolderKind? && fs.nodes[3].children == Empty
    modifies fs
    ensures fs.Valid() && SetUpFacts(fs.nodes)
  {
    var file111 := fs.Create("file111", FileKind("contents"));
    ghost var s := fs.nodes;
    fs.AddChild(3, file111);
    AddChildEffect(s, 3, file111);
    var file21 := fs.Create("file21", FileKind("other contents"));
    s := fs.nodes;
    fs.AddChild(2, file21);
    AddChildEffect(s, 2, file21);
  }

  /**
   * The module's script: two folders under `root`, `folder11` under `folder1`,
   * a file in each of `folder11` and `folder2`; then `folder2` moves into
   * `folder11` and `file21` into `folder1`.  The two printed dictionaries list
   * their keys in these orders.
   */
  method Demo() returns (printed1: seq<string>, printed2: seq<string>, fs: FileSystem)
    ensures fs.Valid() && SecondMoveFacts(fs.nodes)
    ensures printed1 == ["file111", "folder2"]
    ensures printed2 == ["folder11", "file21"]
  {
    fs := DemoSetUp();
    FirstPath();
    SecondPath();
    printed1, printed2 := DemoMoves(fs, "/folder1/folder11", "/folder1");
  }

  /** Lines 93-99, with the two paths of the script. */
  method DemoMoves(fs: FileSystem, path1: string, path2: string) returns (printed1: seq<string>, printed2: seq<string>)
    requires fs.Valid() && SetUpFacts(fs.nodes)
    requires Split(path1, '/')[1..] == ["folder1", "folder11"]
    requires Split(path2, '/')[1..] == ["folder1"]
    modifies fs
    ensures fs.Valid() && SecondMoveFacts(fs.nodes)
    ensures printed1 == ["file111", "folder2"]
    ensures printed2 == ["folder11", "file21"]
  {
    FirstMove(fs.nodes, path1);
    var r1 := fs.Move(2, path1);
    printed1 := fs.nodes[3].children.keys;
    SecondMove(fs.nodes, path2);
    var r2 := fs.Move(5, path2);
    printed2 := fs.nodes[1].children.keys;
  }
}
