/**
 * The states of the small XML parser that illustrates the State pattern.
 *
 * The parser keeps a tree of `Node` objects, a `root`, a `current_node` and a
 * state object; each state's `process` consumes a prefix of the remaining
 * text, updates the parser, and returns the text left over.  Here the nodes
 * live in an arena: a node is named by its position in `nodes`, its parent is
 * an index and its children are a list of indices.  A node is never removed,
 * so positions are stable and a new node is always appended at the end.
 *
 * `Step` is one call of `self.state.process(remaining_string, self)`.  Every
 * exception a state can raise is raised before that state changes anything,
 * so a failed step carries no new parser state.
 */
module XmlState {
  import opened Common
  import opened PyStr

  /** A `Node`: tag name, text, parent and children. */
  datatype NodeRec = NodeRec(tag: string, text: string, parent: Option<nat>, children: seq<nat>)

  /** The class of the parser's state object. */
  datatype StateKind = FirstTag | ChildNode | OpenTag | CloseTag | TextNode

  /** The exceptions a step can raise. */
  datatype Error =
    | AssertionFailed     // one of the two `assert`s of `CloseTag.process`
    | IndexOutOfRange     // `remaining_string[i_start_tag + 1]` past the end
    | NoneHasNoAttribute  // an attribute of `parser.current_node` while it is `None`

  /** Everything a step reads or writes: the arena, `root`, `current_node` and `state`. */
  datatype PState = PState(nodes: seq<NodeRec>, root: Option<nat>, current: Option<nat>, state: StateKind)

  /** A freshly constructed `Parser`. */
  function Init(): PState {
    PState([], None, None, FirstTag)
  }

  /** The parent of every node, in arena order. */
  function Parents(nodes: seq<NodeRec>): (r: seq<Option<nat>>)
    ensures |r| == |nodes|
  {
    seq(|nodes|, k requires 0 <= k < |nodes| => nodes[k].parent)
  }

  /** The positions `j` with `parents[j] == Some(p)`, in increasing order. */
  function ChildrenOf(parents: seq<Option<nat>>, p: nat): seq<nat>
  {
    if parents == [] then []
    else
      var n := |parents| - 1;
      ChildrenOf(parents[..n], p) + (if parents[n] == Some(p) then [n] else [])
  }

  /** Every index the parser follows points at an existing node: `current_node`, and each
      node's parent, which was created before it. */
  predicate Linked(ps: PState) {
    && (ps.current.Some? ==> ps.current.value < |ps.nodes|)
    && (forall k :: 0 <= k < |ps.nodes| && ps.nodes[k].parent.Some? ==> ps.nodes[k].parent.value < k)
  }

  /**
   * The shape of the tree the states build: before the first tag there is
   * nothing; afterwards the root is node 0 and has no parent, every other node
   * has a parent that was created before it, and the children list of every
   * node holds exactly the nodes naming it as parent, in creation order.
   */
  predicate Valid(ps: PState) {
    && Linked(ps)
    && (ps.state == FirstTag <==> ps.root.None?)
    && (ps.root.None? ==> ps.nodes == [] && ps.current.None?)
    && (ps.root.Some? ==> ps.root == Some(0) && |ps.nodes| > 0 && ps.nodes[0].parent.None?)
    && (forall k :: 0 < k < |ps.nodes| ==> ps.nodes[k].parent.Some?)
    && (forall k :: 0 <= k < |ps.nodes| ==> ps.nodes[k].children == ChildrenOf(Parents(ps.nodes), k))
  }

  /** The state `ChildNode` hands the stripped text to, by its first one or two characters. */
  function Dispatch(t: string): StateKind {
    if |t| >= 2 && t[0] == '<' && t[1] == '/' then CloseTag
    else if |t| >= 1 && t[0] == '<' then OpenTag
    else TextNode
  }

  /** `Dispatch` is the `startswith("</")` / `startswith("<")` chain of `ChildNode.process`. */
  lemma DispatchStartsWith(t: string)
    ensures Dispatch(t) == CloseTag <==> StartsWith(t, "</")
    ensures Dispatch(t) == OpenTag <==> !StartsWith(t, "</") && StartsWith(t, "<")
    ensures Dispatch(t) == TextNode <==> !StartsWith(t, "</") && !StartsWith(t, "<")
  {
    if |t| >= 2 && t[0] == '<' && t[1] == '/' {
      assert t[..2] == "</";
    } else if |t| >= 1 && t[0] == '<' {
      assert t[..1] == "<";
    }
  }

  /** `FirstTag.process`: the text between the first `<` and the first `>` names the root. */
  function StepFirstTag(ps: PState, s: string): (PState, string) {
    var iStart, iEnd := Find(s, '<'), Find(s, '>');
    var tag := Slice(s, iStart + 1, iEnd);
    var n := |ps.nodes|;
    (PState(ps.nodes + [NodeRec(tag, [], None, [])], Some(n), Some(n), ChildNode), SliceFrom(s, iEnd + 1))
  }

  /** `ChildNode.process`: strip, then choose the next state by the first characters. */
  function StepChildNode(ps: PState, s: string): (PState, string) {
    var t := Strip(s);
    (ps.(state := Dispatch(t)), t)
  }

  /** `OpenTag.process`: a new node, appended to the current node's children, becomes current. */
  function StepOpenTag(ps: PState, s: string): Result<(PState, string), Error>
    requires ps.current.Some? ==> ps.current.value < |ps.nodes|
  {
    var iStart, iEnd := Find(s, '<'), Find(s, '>');
    var tag := Slice(s, iStart + 1, iEnd);
    match ps.current
    case None => Err(NoneHasNoAttribute)
    case Some(c) =>
      var n := |ps.nodes|;
      var parent := ps.nodes[c].(children := ps.nodes[c].children + [n]);
      var nodes := ps.nodes[c := parent] + [NodeRec(tag, [], Some(c), [])];
      Ok((PState(nodes, ps.root, Some(n), ChildNode), SliceFrom(s, iEnd + 1)))
  }

  /** `CloseTag.process`: check the `/` and the tag name, then make the parent current. */
  function StepCloseTag(ps: PState, s: string): Result<(PState, string), Error>
    requires ps.current.Some? ==> ps.current.value < |ps.nodes|
  {
    var iStart, iEnd := Find(s, '<'), Find(s, '>');
    match Index(s, iStart + 1)
    case None => Err(IndexOutOfRange)
    case Some(slash) =>
      if slash != '/' then Err(AssertionFailed)
      else
        var tag := Slice(s, iStart + 2, iEnd);
        match ps.current
        case None => Err(NoneHasNoAttribute)
        case Some(c) =>
          if tag != ps.nodes[c].tag then Err(AssertionFailed)
          else Ok((ps.(current := ps.nodes[c].parent, state := ChildNode), Strip(SliceFrom(s, iEnd + 1))))
  }

  /** `TextNode.process`: everything before the first `<` becomes the current node's text. */
  function StepTextNode(ps: PState, s: string): Result<(PState, string), Error>
    requires ps.current.Some? ==> ps.current.value < |ps.nodes|
  {
    var iStart := Find(s, '<');
    var text := Slice(s, 0, iStart);
    match ps.current
    case None => Err(NoneHasNoAttribute)
    case Some(c) =>
      var nodes := ps.nodes[c := ps.nodes[c].(text := text)];
      Ok((ps.(nodes := nodes, state := ChildNode), SliceFrom(s, iStart)))
  }

  /** One call of `self.state.process(remaining_string, self)`. */
  function Step(ps: PState, s: string): Result<(PState, string), Error>
    requires ps.current.Some? ==> ps.current.value < |ps.nodes|
  {
    match ps.state
    case FirstTag => Ok(StepFirstTag(ps, s))
    case ChildNode => Ok(StepChildNode(ps, s))
    case OpenTag => StepOpenTag(ps, s)
    case CloseTag => StepCloseTag(ps, s)
    case TextNode => StepTextNode(ps, s)
  }

  // ---------------------------------------------------------------------------
  // The tree shape

  lemma ChildrenOfSnoc(parents: seq<Option<nat>>, x: Option<nat>, p: nat)
    ensures ChildrenOf(parents + [x], p) == ChildrenOf(parents, p) + (if x == Some(p) then [|parents|] else [])
  {
    assert (parents + [x])[..|parents|] == parents;
  }

  lemma {:induction false} ChildrenOfNone(parents: seq<Option<nat>>, p: nat)
    requires forall j :: 0 <= j < |parents| ==> parents[j] != Some(p)
    ensures ChildrenOf(parents, p) == []
    decreases |parents|
  {
    if parents != [] {
      ChildrenOfNone(parents[..|parents| - 1], p);
    }
  }

  /** A children list holds exactly the nodes naming that parent, each once, in creation order. */
  lemma {:induction false} ChildrenInOrder(parents: seq<Option<nat>>, p: nat)
    ensures forall j :: j in ChildrenOf(parents, p) <==> 0 <= j < |parents| && parents[j] == Some(p)
    ensures forall a, b :: 0 <= a < b < |ChildrenOf(parents, p)| ==>
      ChildrenOf(parents, p)[a] < ChildrenOf(parents, p)[b]
    decreases |parents|
  {
    if parents != [] {
      var n := |parents| - 1;
      var front := parents[..n];
      ChildrenInOrder(front, p);
      var cf := ChildrenOf(front, p);
      var c := ChildrenOf(parents, p);
      assert c == cf + (if parents[n] == Some(p) then [n] else []);
      forall a, b | 0 <= a < b < |c| ensures c[a] < c[b] {
        if b < |cf| {
          assert c[a] == cf[a] && c[b] == cf[b];
        } else {
          assert cf[a] in cf;
        }
      }
      forall j ensures j in ChildrenOf(parents, p) <==> 0 <= j < |parents| && parents[j] == Some(p) {
        if j < n {
          assert 0 <= j ==> parents[j] == front[j];
        }
      }
    }
  }

  lemma ParentsOpen(nodes: seq<NodeRec>, c: nat, parent: NodeRec, added: NodeRec)
    requires c < |nodes| && parent.parent == nodes[c].parent
    ensures Parents(nodes[c := parent] + [added]) == Parents(nodes) + [added.parent]
  {
  }

  lemma ParentsKept(nodes: seq<NodeRec>, c: nat, node: NodeRec)
    requires c < |nodes| && node.parent == nodes[c].parent
    ensures Parents(nodes[c := node]) == Parents(nodes)
  {
  }

  lemma ParentsSingle(node: NodeRec)
    ensures Parents([node]) == [node.parent]
  {
  }

  /** Every step that does not raise keeps the shape of the tree. */
  lemma StepValid(ps: PState, s: string)
    requires Valid(ps)
    ensures Step(ps, s).Ok? ==> Valid(Step(ps, s).value.0)
  {
    match ps.state
    case FirstTag => FirstTagValid(ps, s);
    case ChildNode =>
    case OpenTag =>
      if ps.current.Some? {
        OpenTagValid(ps, s);
      }
    case CloseTag =>
    case TextNode =>
      if ps.current.Some? {
        TextNodeValid(ps, s);
      }
  }

  lemma FirstTagValid(ps: PState, s: string)
    requires Valid(ps) && ps.state == FirstTag
    ensures Valid(StepFirstTag(ps, s).0)
  {
    var ps' := StepFirstTag(ps, s).0;
    var node := NodeRec(Slice(s, Find(s, '<') + 1, Find(s, '>')), [], None, []);
    assert ps'.nodes == [node];
    ParentsSingle(node);
    assert ChildrenOf([None], 0) == [];
  }

  lemma OpenTagValid(ps: PState, s: string)
    requires Valid(ps) && ps.state == OpenTag && ps.current.Some?
    ensures Valid(StepOpenTag(ps, s).value.0)
  {
    var c := ps.current.value;
    OpenChildren(ps.nodes, c, Slice(s, Find(s, '<') + 1, Find(s, '>')));
  }

  /** Adding a child of `c` at the end and appending it to `c`'s children keeps every
      children list equal to the nodes naming its owner as parent. */
  lemma OpenChildren(nodes: seq<NodeRec>, c: nat, tag: string)
    requires c < |nodes|
    requires forall k :: 0 <= k < |nodes| && nodes[k].parent.Some? ==> nodes[k].parent.value < k
    requires forall k :: 0 <= k < |nodes| ==> nodes[k].children == ChildrenOf(Parents(nodes), k)
    ensures var n := |nodes|;
      var nodes' := nodes[c := nodes[c].(children := nodes[c].children + [n])] + [NodeRec(tag, [], Some(c), [])];
      forall k :: 0 <= k < |nodes'| ==> nodes'[k].children == ChildrenOf(Parents(nodes'), k)
  {
    var n := |nodes|;
    var added := NodeRec(tag, [], Some(c), []);
    var nodes' := nodes[c := nodes[c].(children := nodes[c].children + [n])] + [added];
    ParentsOpen(nodes, c, nodes'[c], added);
    var P := Parents(nodes);
    assert Parents(nodes') == P + [Some(c)];
    forall k | 0 <= k < |nodes'| ensures nodes'[k].children == ChildrenOf(P + [Some(c)], k) {
      ChildrenOfSnoc(P, Some(c), k);
      if k == n {
        ChildrenOfNone(P, n);
      }
    }
  }

  lemma TextNodeValid(ps: PState, s: string)
    requires Valid(ps) && ps.state == TextNode && ps.current.Some?
    ensures Valid(StepTextNode(ps, s).value.0)
  {
    var c := ps.current.value;
    ParentsKept(ps.nodes, c, ps.nodes[c].(text := Slice(s, 0, Find(s, '<'))));
  }

  /** Every step that does not raise keeps every followed index in range. */
  lemma StepLinked(ps: PState, s: string)
    requires Linked(ps)
    ensures Step(ps, s).Ok? ==> Linked(Step(ps, s).value.0)
  {
    if ps.state == OpenTag && ps.current.Some? {
      OpenTagLinked(ps, s);
    }
  }

  lemma OpenTagLinked(ps: PState, s: string)
    requires Linked(ps) && ps.current.Some?
    ensures Linked(StepOpenTag(ps, s).value.0)
  {
    var ps' := StepOpenTag(ps, s).value.0;
    assert forall k :: 0 <= k < |ps.nodes| ==> ps'.nodes[k].parent == ps.nodes[k].parent;
  }

  // ---------------------------------------------------------------------------
  // What each state does

  /** `FirstTag` creates the root, with no parent, no children and no text, names it by the
      text between the first `<` and the first `>`, and returns what follows that `>` (the
      whole input when there is no `>`). */
  lemma FirstTagCreatesRoot(s: string)
    ensures |StepFirstTag(Init(), s).0.nodes| == 1
    ensures StepFirstTag(Init(), s).0.root == StepFirstTag(Init(), s).0.current == Some(0)
    ensures StepFirstTag(Init(), s).0.state == ChildNode
    ensures StepFirstTag(Init(), s).0.nodes[0].parent.None?
    ensures StepFirstTag(Init(), s).0.nodes[0].children == []
    ensures StepFirstTag(Init(), s).0.nodes[0].text == []
    ensures forall i, e :: 0 <= i < e < |s| && s[i] == '<' && s[e] == '>' && '<' !in s[..i] && '>' !in s[..e] ==>
      StepFirstTag(Init(), s).0.nodes[0].tag == s[i + 1..e] && StepFirstTag(Init(), s).1 == s[e + 1..]
    ensures '>' !in s ==> StepFirstTag(Init(), s).1 == s
  {
    forall i, e | 0 <= i < e < |s| && s[i] == '<' && s[e] == '>' && '<' !in s[..i] && '>' !in s[..e]
      ensures Find(s, '<') == i && Find(s, '>') == e
    {
      FindFirst(s, '<', i);
      FindFirst(s, '>', e);
    }
    if '>' !in s {
      FindAbsent(s, '>');
    }
  }

  /** `ChildNode` changes nothing but the state: it returns the input stripped, and goes to
      `CloseTag` exactly when that starts with `</`, to `OpenTag` exactly when it starts with
      `<` but not `</`, and to `TextNode` otherwise. */
  lemma ChildNodeDispatches(ps: PState, s: string)
    ensures StepChildNode(ps, s).1 == Strip(s)
    ensures StepChildNode(ps, s).0 == ps.(state := StepChildNode(ps, s).0.state)
    ensures StepChildNode(ps, s).0.state == CloseTag <==> StartsWith(Strip(s), "</")
    ensures StepChildNode(ps, s).0.state == OpenTag <==> StartsWith(Strip(s), "<") && !StartsWith(Strip(s), "</")
    ensures StepChildNode(ps, s).0.state == TextNode <==> !StartsWith(Strip(s), "<")
  {
    DispatchStartsWith(Strip(s));
  }

  /** `OpenTag` raises when there is no current node; otherwise it appends one node, whose
      parent is the current node and whose tag lies between the first `<` and the first `>`,
      adds it at the end of the current node's children, makes it current, and leaves every
      other node, the root and every node's text as they were. */
  lemma OpenTagAppendsChild(ps: PState, s: string)
    requires ps.current.Some? ==> ps.current.value < |ps.nodes|
    ensures ps.current.None? <==> StepOpenTag(ps, s) == Err(NoneHasNoAttribute)
    ensures ps.current.Some? ==> StepOpenTag(ps, s).Ok?
    ensures ps.current.Some? ==> |StepOpenTag(ps, s).value.0.nodes| == |ps.nodes| + 1
    ensures ps.current.Some? ==>
      StepOpenTag(ps, s).value.0.nodes[|ps.nodes|] == NodeRec(Slice(s, Find(s, '<') + 1, Find(s, '>')), [], ps.current, [])
    ensures ps.current.Some? ==> var c := ps.current.value;
      StepOpenTag(ps, s).value.0.nodes[c] == ps.nodes[c].(children := ps.nodes[c].children + [|ps.nodes|])
    ensures ps.current.Some? ==> forall k :: 0 <= k < |ps.nodes| && Some(k) != ps.current ==>
      StepOpenTag(ps, s).value.0.nodes[k] == ps.nodes[k]
    ensures ps.current.Some? ==> StepOpenTag(ps, s).value.0.root == ps.root
    ensures ps.current.Some? ==> StepOpenTag(ps, s).value.0.current == Some(|ps.nodes|)
    ensures ps.current.Some? ==> StepOpenTag(ps, s).value.0.state == ChildNode
    ensures ps.current.Some? && 0 <= Find(s, '>') ==> StepOpenTag(ps, s).value.1 == s[Find(s, '>') + 1..]
  {
    if ps.current.Some? {
      var c, n := ps.current.value, |ps.nodes|;
      var tag := Slice(s, Find(s, '<') + 1, Find(s, '>'));
      var nodes := ps.nodes[c := ps.nodes[c].(children := ps.nodes[c].children + [n])] + [NodeRec(tag, [], Some(c), [])];
      assert StepOpenTag(ps, s) == Ok((PState(nodes, ps.root, Some(n), ChildNode), SliceFrom(s, Find(s, '>') + 1)));
      ChildAppended(ps.nodes, c, NodeRec(tag, [], Some(c), []));
    }
  }

  lemma ChildAppended(nodes: seq<NodeRec>, c: nat, added: NodeRec)
    requires c < |nodes|
    ensures |nodes[c := nodes[c].(children := nodes[c].children + [|nodes|])] + [added]| == |nodes| + 1
    ensures (nodes[c := nodes[c].(children := nodes[c].children + [|nodes|])] + [added])[|nodes|] == added
    ensures (nodes[c := nodes[c].(children := nodes[c].children + [|nodes|])] + [added])[c]
      == nodes[c].(children := nodes[c].children + [|nodes|])
    ensures forall k :: 0 <= k < |nodes| && k != c ==>
      (nodes[c := nodes[c].(children := nodes[c].children + [|nodes|])] + [added])[k] == nodes[k]
  {
  }

  /** `CloseTag` succeeds exactly when the character after the first `<` exists and is `/`,
      there is a current node, and the text from there to the first `>` is that node's tag.
      The failures are reported as Python raises them: an index error when nothing follows
      the `<`, an attribute error when there is no current node. */
  lemma CloseTagChecks(ps: PState, s: string)
    requires ps.current.Some? ==> ps.current.value < |ps.nodes|
    ensures StepCloseTag(ps, s).Ok? <==>
      && Find(s, '<') + 1 < |s| && s[Find(s, '<') + 1] == '/' && ps.current.Some?
      && Slice(s, Find(s, '<') + 2, Find(s, '>')) == ps.nodes[ps.current.value].tag
    ensures StepCloseTag(ps, s) == Err(IndexOutOfRange) <==> Find(s, '<') + 1 >= |s|
    ensures StepCloseTag(ps, s) == Err(NoneHasNoAttribute) <==>
      Find(s, '<') + 1 < |s| && s[Find(s, '<') + 1] == '/' && ps.current.None?
  {
    var i := Find(s, '<');
    if i + 1 < |s| {
      assert Index(s, i + 1) == Some(s[i + 1]);
    } else {
      assert Index(s, i + 1).None?;
    }
  }

  /** A `CloseTag` step that succeeds moves `current_node` to the parent and changes no
      node; the returned text is what follows the first `>`, stripped. */
  lemma CloseTagAscends(ps: PState, s: string)
    requires ps.current.Some? ==> ps.current.value < |ps.nodes|
    requires StepCloseTag(ps, s).Ok?
    ensures StepCloseTag(ps, s).value.0.nodes == ps.nodes
    ensures StepCloseTag(ps, s).value.0.root == ps.root
    ensures StepCloseTag(ps, s).value.0.state == ChildNode
    ensures StepCloseTag(ps, s).value.0.current == ps.nodes[ps.current.value].parent
    ensures StepCloseTag(ps, s).value.1 == Strip(SliceFrom(s, Find(s, '>') + 1))
  {
    var c := ps.current.value;
    assert StepCloseTag(ps, s) == Ok((ps.(current := ps.nodes[c].parent, state := ChildNode), Strip(SliceFrom(s, Find(s, '>') + 1))));
  }

  /** Closing the root leaves no current node; every later `OpenTag`, `CloseTag` or
      `TextNode` step then raises. */
  lemma CloseRootLeavesNoCurrent(ps: PState, s: string, t: string)
    requires Valid(ps) && ps.current == ps.root
    requires StepCloseTag(ps, s).Ok?
    ensures StepCloseTag(ps, s).value.0.current.None?
    ensures StepOpenTag(StepCloseTag(ps, s).value.0, t).Err?
    ensures StepCloseTag(StepCloseTag(ps, s).value.0, t).Err?
    ensures StepTextNode(StepCloseTag(ps, s).value.0, t).Err?
  {
  }

  /** `TextNode` raises when there is no current node; otherwise it replaces that node's text
      (whatever it was) by the text before the first `<` and returns the rest from that `<`
      on, so nothing is lost between them; without a `<` the last character is held back.
      No other node, and nothing else of that node, changes. */
  lemma TextNodeOverwrites(ps: PState, s: string)
    requires ps.current.Some? ==> ps.current.value < |ps.nodes|
    ensures ps.current.None? <==> StepTextNode(ps, s) == Err(NoneHasNoAttribute)
    ensures ps.current.Some? ==> StepTextNode(ps, s).Ok?
    ensures ps.current.Some? ==> |StepTextNode(ps, s).value.0.nodes| == |ps.nodes|
    ensures ps.current.Some? ==> var c := ps.current.value; var n := StepTextNode(ps, s).value.0.nodes[c];
      n == ps.nodes[c].(text := n.text)
    ensures ps.current.Some? ==> forall k :: 0 <= k < |ps.nodes| && Some(k) != ps.current ==>
      StepTextNode(ps, s).value.0.nodes[k] == ps.nodes[k]
    ensures ps.current.Some? ==> StepTextNode(ps, s).value.0 == ps.(nodes := StepTextNode(ps, s).value.0.nodes, state := ChildNode)
    ensures ps.current.Some? && s != [] ==>
      StepTextNode(ps, s).value.0.nodes[ps.current.value].text + StepTextNode(ps, s).value.1 == s
    ensures ps.current.Some? ==> '<' !in StepTextNode(ps, s).value.0.nodes[ps.current.value].text
    ensures ps.current.Some? && 0 <= Find(s, '<') ==> StepTextNode(ps, s).value.1[..1] == "<"
    ensures ps.current.Some? && Find(s, '<') == -1 && s != [] ==> StepTextNode(ps, s).value.1 == [s[|s| - 1]]
  {
    TextSplit(s);
  }

  /** How `TextNode` cuts its input: the text and the rest put together are the input. */
  lemma TextSplit(s: string)
    ensures s != [] ==> Slice(s, 0, Find(s, '<')) + SliceFrom(s, Find(s, '<')) == s
    ensures '<' !in Slice(s, 0, Find(s, '<'))
    ensures 0 <= Find(s, '<') ==> |SliceFrom(s, Find(s, '<'))| > 0 && SliceFrom(s, Find(s, '<'))[0] == '<'
    ensures Find(s, '<') == -1 && s != [] ==> SliceFrom(s, Find(s, '<')) == [s[|s| - 1]]
  {
    if 0 <= Find(s, '<') {
      TextSplitAt(s, Find(s, '<'));
    } else {
      TextSplitNone(s);
    }
  }

  lemma TextSplitAt(s: string, i: nat)
    requires i == Find(s, '<')
    ensures Slice(s, 0, i) + SliceFrom(s, i) == s
    ensures '<' !in Slice(s, 0, i)
    ensures |SliceFrom(s, i)| > 0 && SliceFrom(s, i)[0] == '<'
  {
    FindSpec(s, '<');
    assert Slice(s, 0, i) == s[..i];
  }

  lemma TextSplitNone(s: string)
    requires Find(s, '<') == -1
    ensures s != [] ==> Slice(s, 0, -1) + SliceFrom(s, -1) == s
    ensures '<' !in Slice(s, 0, -1)
    ensures s != [] ==> SliceFrom(s, -1) == [s[|s| - 1]]
  {
    if s != [] {
      var n := |s|;
      assert Clamp(-1, n) == n - 1 && Clamp(0, n) == 0;
      var text := Slice(s, 0, -1);
      assert text == s[..n - 1];
      FindSpec(s, '<');
      assert forall j :: 0 <= j < n - 1 ==> text[j] == s[j];
    } else {
      assert Slice(s, 0, -1) == [];
    }
  }

  /** When `ChildNode` has passed a text on to `TextNode`, the captured text starts with
      no whitespace but keeps any whitespace before the next `<`. */
  lemma TextKeepsTrailingSpace(ps: PState, s: string)
    requires ps.current.Some? && ps.current.value < |ps.nodes|
    requires Dispatch(Strip(s)) == TextNode && 0 < Find(Strip(s), '<')
    ensures var step := StepChildNode(ps, s); var ps1, t := step.0, step.1;
      && StepTextNode(ps1, t).Ok?
      && var text := StepTextNode(ps1, t).value.0.nodes[ps.current.value].text;
      && text == t[..Find(t, '<')]
      && !IsSpace(text[0])
  {
    var t := Strip(s);
    StripEnds(s);
    assert t[..Find(t, '<')][0] == t[0];
  }

  // ---------------------------------------------------------------------------
  // Driving the states

  /** Where a run of at most `fuel` steps ends: all text consumed, an exception raised
      (with the parser as it was when raised), or text still to be processed. */
  datatype Outcome = Finished(final: PState) | Failed(error: Error, at: PState) | Pending(now: PState, rest: string)

  /** `Parser.process`: one step, then another on the returned text while that is
      non-empty.  `fuel` bounds the number of steps taken. */
  function Run(ps: PState, s: string, fuel: nat): Outcome
    requires Linked(ps)
    decreases fuel, 0
  {
    if fuel == 0 then Pending(ps, s)
    else
      StepLinked(ps, s);
      Resume(ps, Step(ps, s), fuel - 1)
  }

  /** What the loop of `Parser.process` does with the result of the step taken in state `ps`. */
  function Resume(ps: PState, r: Result<(PState, string), Error>, fuel: nat): Outcome
    requires r.Ok? ==> Linked(r.value.0)
    decreases fuel, 1
  {
    match r
    case Err(e) => Failed(e, ps)
    case Ok((ps', rest)) => if rest == [] then Finished(ps') else Run(ps', rest, fuel)
  }

  /** Running `n + 1` steps is running `n` steps and then one more. */
  lemma {:induction false} RunSnoc(ps: PState, s: string, n: nat, mid: PState, rest: string)
    requires Linked(ps) && Linked(mid) && Run(ps, s, n) == Pending(mid, rest)
    ensures Run(ps, s, n + 1) == Run(mid, rest, 1)
    decreases n
  {
    if n > 0 {
      StepLinked(ps, s);
      var step := Step(ps, s).value; var ps', rest' := step.0, step.1;
      RunSnoc(ps', rest', n - 1, mid, rest);
    }
  }

  /** Once a run has ended, one more step of fuel changes nothing. */
  lemma {:induction false} RunStays(ps: PState, s: string, n: nat, o: Outcome)
    requires Linked(ps) && Run(ps, s, n) == o && !o.Pending?
    ensures Run(ps, s, n + 1) == o
    decreases n
  {
    if n > 0 {
      StepLinked(ps, s);
      var step := Step(ps, s);
      if step.Ok? && step.value.1 != [] {
        RunStays(step.value.0, step.value.1, n - 1, o);
      }
    }
  }

  /** Two runs from the same start that both end, end the same way. */
  lemma RunEndsOnce(ps: PState, s: string, a: nat, b: nat)
    requires Linked(ps) && !Run(ps, s, a).Pending? && !Run(ps, s, b).Pending?
    ensures Run(ps, s, a) == Run(ps, s, b)
  {
    if a <= b {
      RunEndsLater(ps, s, a, b, Run(ps, s, a));
    } else {
      RunEndsLater(ps, s, b, a, Run(ps, s, b));
    }
  }

  lemma RunEndsLater(ps: PState, s: string, a: nat, b: nat, o: Outcome)
    requires Linked(ps) && a <= b && Run(ps, s, a) == o && !o.Pending?
    ensures Run(ps, s, b) == o
  {
    var f := (n: nat) => Run(ps, s, n);
    forall n: nat | f(n) == o
      ensures f(n + 1) == o
    {
      RunStays(ps, s, n, o);
    }
    StaysFrom(f, o, a, b);
  }

  /** A sequence of outcomes that keeps `o` once it has reached it. */
  lemma {:induction false} StaysFrom(f: nat -> Outcome, o: Outcome, a: nat, b: nat)
    requires forall n: nat :: f(n) == o ==> f(n + 1) == o
    requires a <= b && f(a) == o
    ensures f(b) == o
    decreases b
  {
    if a < b {
      StaysFrom(f, o, a, b - 1);
      assert f(b - 1 + 1) == o;
    }
  }

  /**
   * Stripped text in which every tag that begins with `<` is closed by a `>`
   * and every piece of text runs up to a `<`: the inputs on which the drive
   * loop is sure to stop.
   */
  predicate Delimited(t: string)
    decreases |t|
  {
    if t == [] then true
    else if t[0] == '<' then
      var e := Find(t, '>');
      0 <= e && Delimited(Strip(t[e + 1..]))
    else
      var i := Find(t, '<');
      0 < i && Delimited(Strip(t[i..]))
  }

  /** A whole document the parser is sure to finish: delimited after its first `>`. */
  predicate WellDelimited(doc: string) {
    Delimited(Strip(SliceFrom(doc, Find(doc, '>') + 1)))
  }

  /** Non-empty text with no whitespace at either end: what `strip` returns, when not empty. */
  predicate Trimmed(s: string) {
    s != [] && !IsSpace(s[0]) && !IsSpace(s[|s| - 1])
  }

  /** What the drive loop keeps true of the state and the text still to process. */
  predicate Ready(k: StateKind, s: string) {
    match k
    case FirstTag => WellDelimited(s)
    case ChildNode => Delimited(Strip(s))
    case _ => Trimmed(s) && Dispatch(s) == k && Delimited(s)
  }

  /** The second component of the loop's measure: `FirstTag` > `ChildNode` > the others. */
  function Rank(k: StateKind): nat {
    match k
    case FirstTag => 2
    case ChildNode => 1
    case _ => 0
  }

  /** On ready text, a step that does not raise either finishes or leaves ready text that
      is shorter, or as long but in a lower-ranked state. */
  lemma StepProgress(ps: PState, s: string)
    requires ps.current.Some? ==> ps.current.value < |ps.nodes|
    requires Ready(ps.state, s) && Step(ps, s).Ok?
    ensures var step := Step(ps, s).value; var ps', rest := step.0, step.1;
      rest != [] ==> Ready(ps'.state, rest) && (|rest| < |s| || (|rest| == |s| && Rank(ps'.state) < Rank(ps.state)))
  {
    match ps.state
    case FirstTag =>
    case ChildNode =>
      if Strip(s) != [] {
        ReadyAfterStrip(s);
      }
    case OpenTag => ReadyAfterOpen(ps, s);
    case CloseTag => ReadyAfterClose(ps, s);
    case TextNode => ReadyAfterText(ps, s);
  }

  lemma ReadyAfterStrip(s: string)
    requires Delimited(Strip(s)) && Strip(s) != []
    ensures Ready(Dispatch(Strip(s)), Strip(s))
  {
    StripEnds(s);
  }

  lemma ReadyAfterOpen(ps: PState, s: string)
    requires ps.current.Some? && ps.current.value < |ps.nodes|
    requires Ready(OpenTag, s)
    ensures var rest := StepOpenTag(ps, s).value.1;
      |rest| < |s| && Ready(ChildNode, rest)
  {
    var e := Find(s, '>');
    assert 0 <= e;
    assert SliceFrom(s, e + 1) == s[e + 1..];
  }

  lemma ReadyAfterClose(ps: PState, s: string)
    requires ps.current.Some? ==> ps.current.value < |ps.nodes|
    requires Ready(CloseTag, s) && StepCloseTag(ps, s).Ok?
    ensures var rest := StepCloseTag(ps, s).value.1;
      |rest| < |s| && Ready(ChildNode, rest)
  {
    var e := Find(s, '>');
    CloseTagRest(s);
    StripIdempotent(s[e + 1..]);
    assert StepCloseTag(ps, s).value.1 == Strip(s[e + 1..]);
  }

  lemma CloseTagRest(s: string)
    requires Ready(CloseTag, s)
    ensures var e := Find(s, '>');
      0 <= e && Find(s, '<') == 0 && SliceFrom(s, e + 1) == s[e + 1..] && Delimited(Strip(s[e + 1..]))
  {
  }

  lemma ReadyAfterText(ps: PState, s: string)
    requires ps.current.Some? && ps.current.value < |ps.nodes|
    requires Ready(TextNode, s)
    ensures var rest := StepTextNode(ps, s).value.1;
      |rest| < |s| && Ready(ChildNode, rest)
  {
    var i := Find(s, '<');
    assert 0 < i;
    assert SliceFrom(s, i) == s[i..];
  }

  /** An opening tag with no `>` anywhere after it is read again and again, adding a node
      each time: the loop never finishes, whatever the number of steps. */
  lemma {:induction false} UnclosedTagNeverFinishes(ps: PState, s: string, fuel: nat)
    requires Linked(ps) && ps.state == ChildNode && ps.current.Some?
    requires Trimmed(s) && Dispatch(s) == OpenTag && '>' !in s
    ensures Run(ps, s, fuel).Pending?
    decreases fuel
  {
    if fuel >= 1 {
      StripFixed(s);
      var ps1 := StepChildNode(ps, s).0;
      assert StepChildNode(ps, s).1 == s;
      if fuel >= 2 {
        FindAbsent(s, '>');
        OpenTagLinked(ps1, s);
        var ps2 := StepOpenTag(ps1, s).value.0;
        assert StepOpenTag(ps1, s).value.1 == s;
        UnclosedTagNeverFinishes(ps2, s, fuel - 2);
        assert Run(ps1, s, fuel - 1) == Run(ps2, s, fuel - 2);
      }
    }
  }

  /** `<a><b` makes the parser loop forever instead of reporting an error. */
  lemma MalformedInputLoops(fuel: nat)
    ensures Run(Init(), "<a><b", fuel).Pending?
  {
    var s := "<a><b";
    if fuel > 0 {
      assert Find(s, '<') == 0;
      FindFirst(s, '>', 2);
      var ps1 := StepFirstTag(Init(), s).0;
      assert StepFirstTag(Init(), s).1 == "<b";
      UnclosedTagNeverFinishes(ps1, "<b", fuel - 1);
    }
  }
}
