/**
 * What the State-pattern parser makes of a well-formed document.
 *
 * An `Elem` is an element of the documents the parser is written for: a tag
 * name, a text and child elements.  `Render` lays it out the way the
 * example's sample document is laid out: every child on its own line,
 * indented by four spaces per level, and the closing tag of an element with
 * children on a line of its own.  `Flat` is the arena such an element
 * becomes: its node, then the nodes of its children one subtree after the
 * other (pre-order), each node naming its parent and its children by
 * position.  The main theorem, `ParseDocument`, says that the drive loop run
 * on a rendered document finishes, without an exception, with exactly that
 * arena, the root at position 0 and no current node.
 */
module XmlRoundTrip {
  import opened Common
  import opened PyStr
  import opened XmlState

  datatype Elem = Elem(tag: string, text: string, kids: seq<Elem>)

  /** A tag name the parser reads back: no `>` in it, and no leading `/`. */
  predicate TagOk(tag: string) {
    '>' !in tag && (tag == [] || tag[0] != '/')
  }

  /** A text the parser reads back: no `<` in it and no whitespace in front. */
  predicate TextOk(text: string) {
    '<' !in text && (text == [] || !IsSpace(text[0]))
  }

  /** Well-formed elements hold either text or child elements, not both. */
  predicate WellFormed(e: Elem)
    decreases e
  {
    && TagOk(e.tag) && TextOk(e.text)
    && (e.text == [] || e.kids == [])
    && forall i :: 0 <= i < |e.kids| ==> WellFormed(e.kids[i])
  }

  predicate AllWellFormed(ks: seq<Elem>) {
    forall i :: 0 <= i < |ks| ==> WellFormed(ks[i])
  }

  // ---------------------------------------------------------------------------
  // Layout

  function Spaces(n: nat): (r: string)
    ensures |r| == n && AllSpace(r)
  {
    seq(n, _ => ' ')
  }

  /** The line break and indentation in front of a tag at depth `d`. */
  function Line(d: nat): (r: string)
    ensures r != [] && AllSpace(r)
  {
    "\n" + Spaces(4 * d)
  }

  /** An element at depth `d`: its opening tag, then its body. */
  function Render(e: Elem, d: nat): string
    decreases e, 1
  {
    "<" + e.tag + ">" + Body(e, d)
  }

  /** What follows the opening tag: the text, the children, the closing tag. */
  function Body(e: Elem, d: nat): string
    decreases e, 0
  {
    e.text + RenderKids(e.kids, d + 1) + Close(e, d)
  }

  function Close(e: Elem, d: nat): string {
    (if e.kids == [] then "" else Line(d)) + "</" + e.tag + ">"
  }

  /** Child elements at depth `d`, each on its own line. */
  function RenderKids(ks: seq<Elem>, d: nat): string
    decreases ks
  {
    if ks == [] then "" else Line(d) + Render(ks[0], d) + RenderKids(ks[1..], d)
  }

  /** A whole document: the root element between two line breaks. */
  function Document(e: Elem): string {
    Line(0) + Render(e, 0) + "\n"
  }

  // ---------------------------------------------------------------------------
  // The arena an element becomes

  function Size(e: Elem): nat
    decreases e
  {
    1 + SizeKids(e.kids)
  }

  function SizeKids(ks: seq<Elem>): nat
    decreases ks
  {
    if ks == [] then 0 else Size(ks[0]) + SizeKids(ks[1..])
  }

  /** The positions the subtrees of `ks` start at, when laid out from position `m`. */
  function Starts(ks: seq<Elem>, m: nat): seq<nat>
    decreases ks
  {
    if ks == [] then [] else [m] + Starts(ks[1..], m + Size(ks[0]))
  }

  /** The nodes of `e`, in pre-order, from position `n`, the first one naming `parent`. */
  function Flat(e: Elem, parent: Option<nat>, n: nat): seq<NodeRec>
    decreases e
  {
    [NodeRec(e.tag, e.text, parent, Starts(e.kids, n + 1))] + FlatKids(e.kids, n, n + 1)
  }

  /** The nodes of the subtrees of `ks`, one after the other, from position `m`. */
  function FlatKids(ks: seq<Elem>, p: nat, m: nat): seq<NodeRec>
    decreases ks
  {
    if ks == [] then [] else Flat(ks[0], Some(p), m) + FlatKids(ks[1..], p, m + Size(ks[0]))
  }

  /** The arena after the elements `ks` have been parsed below node `c`. */
  function AddKids(nodes: seq<NodeRec>, c: nat, ks: seq<Elem>): seq<NodeRec>
    requires c < |nodes|
  {
    nodes[c := nodes[c].(children := nodes[c].children + Starts(ks, |nodes|))] + FlatKids(ks, c, |nodes|)
  }

  // ---------------------------------------------------------------------------
  // The number of steps

  function BodySteps(e: Elem): nat
    decreases e, 0
  {
    (if e.text == [] then 0 else 2) + KidsSteps(e.kids) + 2
  }

  function ElemSteps(e: Elem): nat
    decreases e, 1
  {
    2 + BodySteps(e)
  }

  function KidsSteps(ks: seq<Elem>): nat
    decreases ks
  {
    if ks == [] then 0 else ElemSteps(ks[0]) + KidsSteps(ks[1..])
  }

  // ---------------------------------------------------------------------------
  // Runs put together
  //
  // The lemmas below say what a run of `n + k` steps does for every `k`: the
  // first `n` steps consume one part of the document, and the run goes on
  // from there with the remaining `k`.

  /** Text that does not end in whitespace. */
  predicate RightTrimmed(s: string) {
    s == [] || !IsSpace(s[|s| - 1])
  }

  /** After a first step that returned non-empty text, a run goes on from there. */
  lemma RunNext(ps: PState, s: string, n: nat)
    requires Linked(ps) && n > 0 && Step(ps, s).Ok? && Step(ps, s).value.1 != []
    ensures Linked(Step(ps, s).value.0)
    ensures Run(ps, s, n) == Run(Step(ps, s).value.0, Step(ps, s).value.1, n - 1)
  {
    StepLinked(ps, s);
  }

  /** Two steps that do not raise, the first returning non-empty text. */
  lemma TwoSteps(ps: PState, s: string, ps1: PState, m: string, ps2: PState, t: string, k: nat)
    requires Linked(ps) && Step(ps, s) == Ok((ps1, m)) && m != []
    requires Step(ps1, m) == Ok((ps2, t))
    ensures Linked(ps1) && Linked(ps2)
    ensures Run(ps, s, 2 + k) == if t == [] then Finished(ps2) else Run(ps2, t, k)
  {
    RunNext(ps, s, 2 + k);
    StepLinked(ps1, m);
  }

  /** In the `ChildNode` state, what the text looks like around its strip makes no difference. */
  lemma RunStripped(ps: PState, s: string, n: nat)
    requires Linked(ps) && ps.state == ChildNode && n >= 1
    ensures Run(ps, Strip(s), n) == Run(ps, s, n)
  {
    StripIdempotent(s);
    assert StepChildNode(ps, Strip(s)) == StepChildNode(ps, s);
  }

  // ---------------------------------------------------------------------------
  // The steps for each part of a document

  /** The state after an opening tag `tag` below node `c`. */
  function Opened(ps: PState, c: nat, tag: string): PState
    requires c < |ps.nodes|
  {
    var n := |ps.nodes|;
    PState(ps.nodes[c := ps.nodes[c].(children := ps.nodes[c].children + [n])] + [NodeRec(tag, [], Some(c), [])],
           ps.root, Some(n), ChildNode)
  }

  lemma OpenTagOn(ps: PState, tag: string, r: string)
    requires Linked(ps) && ps.current.Some?
    requires TagOk(tag)
    ensures StepOpenTag(ps, "<" + tag + ">" + r) == Ok((Opened(ps, ps.current.value, tag), r))
  {
    var m := "<" + tag + ">" + r;
    assert m[..|tag| + 1] == "<" + tag;
    FindFirst(m, '>', |tag| + 1);
    assert Slice(m, 1, |tag| + 1) == tag;
    assert SliceFrom(m, |tag| + 2) == r;
  }

  /** Whitespace and an opening tag: `ChildNode`, then `OpenTag`. */
  lemma OpenSteps(ps: PState, w: string, tag: string, r: string, k: nat)
    requires Linked(ps) && ps.state == ChildNode && ps.current.Some?
    requires AllSpace(w) && TagOk(tag) && r != [] && RightTrimmed(r)
    ensures Linked(Opened(ps, ps.current.value, tag))
    ensures Run(ps, w + "<" + tag + ">" + r, 2 + k) == Run(Opened(ps, ps.current.value, tag), r, k)
  {
    var m := "<" + tag + ">" + r;
    var ps1 := ps.(state := OpenTag);
    OpenDispatch(ps, w, tag, r);
    OpenTagOn(ps1, tag, r);
    TwoSteps(ps, w + m + [], ps1, m, Opened(ps, ps.current.value, tag), r, k);
  }

  /** `ChildNode` strips the whitespace before an opening tag and passes it to `OpenTag`. */
  lemma OpenDispatch(ps: PState, w: string, tag: string, r: string)
    requires AllSpace(w) && TagOk(tag) && RightTrimmed(r)
    ensures w + "<" + tag + ">" + r == w + ("<" + tag + ">" + r) + []
    ensures StepChildNode(ps, w + ("<" + tag + ">" + r) + []) == (ps.(state := OpenTag), "<" + tag + ">" + r)
  {
    var m := "<" + tag + ">" + r;
    assert w + "<" + tag + ">" + r == w + m + [];
    StripAround(w, m, []);
    assert m[1] == if tag == [] then '>' else tag[0];
    assert Dispatch(m) == OpenTag;
  }

  lemma TextNodeOn(ps: PState, text: string, r: string)
    requires Linked(ps) && ps.current.Some?
    requires '<' !in text && r != [] && r[0] == '<'
    ensures var c := ps.current.value;
      StepTextNode(ps, text + r) == Ok((ps.(nodes := ps.nodes[c := ps.nodes[c].(text := text)], state := ChildNode), r))
  {
    var m := text + r;
    assert m[..|text|] == text;
    FindFirst(m, '<', |text|);
    assert Slice(m, 0, |text|) == text;
    assert SliceFrom(m, |text|) == r;
  }

  /** The state after the current node `c` got the text `text`. */
  function Texted(ps: PState, c: nat, text: string): PState
    requires c < |ps.nodes|
  {
    ps.(nodes := ps.nodes[c := ps.nodes[c].(text := text)])
  }

  /** A text and then a tag: `ChildNode`, then `TextNode`. */
  lemma TextSteps(ps: PState, text: string, r: string, k: nat)
    requires Linked(ps) && ps.state == ChildNode && ps.current.Some?
    requires TextOk(text) && text != []
    requires r != [] && r[0] == '<' && RightTrimmed(r)
    ensures Linked(Texted(ps, ps.current.value, text))
    ensures Run(ps, text + r, 2 + k) == Run(Texted(ps, ps.current.value, text), r, k)
  {
    var m := text + r;
    var ps1 := ps.(state := TextNode);
    TextDispatch(ps, text, r);
    TextNodeOn(ps1, text, r);
    TwoSteps(ps, m, ps1, m, Texted(ps, ps.current.value, text), r, k);
  }

  /** `ChildNode` passes a text followed by a tag to `TextNode` unchanged. */
  lemma TextDispatch(ps: PState, text: string, r: string)
    requires TextOk(text) && text != []
    requires r != [] && RightTrimmed(r)
    ensures StepChildNode(ps, text + r) == (ps.(state := TextNode), text + r)
  {
    var m := text + r;
    assert m[0] == text[0] && m[|m| - 1] == r[|r| - 1];
    assert [] + m + [] == m;
    StripAround([], m, []);
    assert Dispatch(m) == TextNode;
  }

  lemma CloseTagOn(ps: PState, r: string)
    requires Linked(ps) && ps.current.Some?
    requires TagOk(ps.nodes[ps.current.value].tag)
    ensures var c := ps.current.value;
      StepCloseTag(ps, "</" + ps.nodes[c].tag + ">" + r)
        == Ok((ps.(current := ps.nodes[c].parent, state := ChildNode), Strip(r)))
  {
    var tag := ps.nodes[ps.current.value].tag;
    var m := "</" + tag + ">" + r;
    assert m[..|tag| + 2] == "</" + tag;
    FindFirst(m, '>', |tag| + 2);
    assert Index(m, 1) == Some('/');
    assert Slice(m, 2, |tag| + 2) == tag;
    assert SliceFrom(m, |tag| + 3) == r;
  }

  /** The state after closing the current node `c`. */
  function Closed(ps: PState, c: nat): PState
    requires c < |ps.nodes|
  {
    ps.(current := ps.nodes[c].parent)
  }

  /** Whitespace and the closing tag of the current node: `ChildNode`, then
      `CloseTag`; the run ends there when nothing but whitespace follows. */
  lemma CloseSteps(ps: PState, w: string, r: string, k: nat)
    requires Linked(ps) && ps.state == ChildNode && ps.current.Some?
    requires TagOk(ps.nodes[ps.current.value].tag)
    requires AllSpace(w) && RightTrimmed(r)
    ensures Linked(Closed(ps, ps.current.value))
    ensures Run(ps, w + "</" + ps.nodes[ps.current.value].tag + ">" + r, 2 + k)
      == if Strip(r) == [] then Finished(Closed(ps, ps.current.value)) else Run(Closed(ps, ps.current.value), Strip(r), k)
  {
    var tag := ps.nodes[ps.current.value].tag;
    var m := "</" + tag + ">" + r;
    var ps1 := ps.(state := CloseTag);
    CloseDispatch(ps, w, tag, r);
    CloseTagOn(ps1, r);
    TwoSteps(ps, w + m + [], ps1, m, Closed(ps, ps.current.value), Strip(r), k);
  }

  /** `ChildNode` strips the whitespace before a closing tag and passes it to `CloseTag`. */
  lemma CloseDispatch(ps: PState, w: string, tag: string, r: string)
    requires AllSpace(w) && RightTrimmed(r)
    ensures w + "</" + tag + ">" + r == w + ("</" + tag + ">" + r) + []
    ensures StepChildNode(ps, w + ("</" + tag + ">" + r) + []) == (ps.(state := CloseTag), "</" + tag + ">" + r)
  {
    var m := "</" + tag + ">" + r;
    assert w + "</" + tag + ">" + r == w + m + [];
    StripAround(w, m, []);
    assert Dispatch(m) == CloseTag;
  }

  /** The closing tag of the current node, with no whitespace in front. */
  lemma CloseNow(ps: PState, r: string, k: nat)
    requires Linked(ps) && ps.state == ChildNode && ps.current.Some?
    requires TagOk(ps.nodes[ps.current.value].tag) && RightTrimmed(r)
    ensures Linked(Closed(ps, ps.current.value))
    ensures Run(ps, "</" + ps.nodes[ps.current.value].tag + ">" + r, 2 + k)
      == if Strip(r) == [] then Finished(Closed(ps, ps.current.value)) else Run(Closed(ps, ps.current.value), Strip(r), k)
  {
    var m := "</" + ps.nodes[ps.current.value].tag + ">" + r;
    assert [] + "</" + ps.nodes[ps.current.value].tag + ">" + r == m;
    CloseSteps(ps, [], r, k);
  }

  // ---------------------------------------------------------------------------
  // Arena identities

  lemma {:induction false} FlatSize(e: Elem, parent: Option<nat>, n: nat)
    ensures |Flat(e, parent, n)| == Size(e)
    decreases e, 1
  {
    FlatKidsSize(e.kids, n, n + 1);
  }

  lemma {:induction false} FlatKidsSize(ks: seq<Elem>, p: nat, m: nat)
    ensures |FlatKids(ks, p, m)| == SizeKids(ks)
    decreases ks, 0
  {
    if ks != [] {
      FlatSize(ks[0], Some(p), m);
      FlatKidsSize(ks[1..], p, m + Size(ks[0]));
    }
  }

  lemma AddNoKids(nodes: seq<NodeRec>, c: nat)
    requires c < |nodes|
    ensures AddKids(nodes, c, []) == nodes
  {
    assert nodes[c].children + [] == nodes[c].children;
  }

  /** Updating a position of the front part of a sequence. */
  lemma UpdateFront<T>(a: seq<T>, b: seq<T>, c: nat, v: T)
    requires c < |a|
    ensures (a + b)[c := v] == a[c := v] + b
  {
  }

  /** Parsing `ks[0]` and then the rest of `ks` below `c` adds what parsing all of `ks` does. */
  lemma AddKidsCons(nodes: seq<NodeRec>, c: nat, ks: seq<Elem>)
    requires c < |nodes| && ks != []
    ensures AddKids(AddKids(nodes, c, [ks[0]]), c, ks[1..]) == AddKids(nodes, c, ks)
  {
    var n, x := |nodes|, nodes[c];
    var f := Flat(ks[0], Some(c), n);
    FlatSize(ks[0], Some(c), n);
    assert Starts([ks[0]], n) == [n];
    assert FlatKids([ks[0]], c, n) == f + [];
    var u := nodes[c := x.(children := x.children + [n])];
    assert AddKids(nodes, c, [ks[0]]) == u + f;
    var ss := Starts(ks[1..], n + Size(ks[0]));
    var v := x.(children := x.children + [n] + ss);
    UpdateFront(u, f, c, v);
    assert x.children + [n] + ss == x.children + Starts(ks, n);
    assert u[c := v] == nodes[c := v];
    assert (u + f)[c := v] + FlatKids(ks[1..], c, n + Size(ks[0])) == nodes[c := v] + FlatKids(ks, c, n);
  }

  /** Opening `e` below `c` makes node `n`, the last one, and parsing `e`'s body
      then gives the arena of `AddKids` with `c` current again. */
  lemma OpenedState(ps: PState, c: nat, e: Elem)
    requires c < |ps.nodes| && ps.current == Some(c) && ps.state == ChildNode
    ensures var n := |ps.nodes|;
      n + 1 == |Opened(ps, c, e.tag).nodes| && Opened(ps, c, e.tag).nodes[n] == NodeRec(e.tag, [], Some(c), [])
    ensures Parsed(Opened(ps, c, e.tag), |ps.nodes|, e) == ps.(nodes := AddKids(ps.nodes, c, [e]))
  {
    var n, x := |ps.nodes|, ps.nodes[c];
    var u := ps.nodes[c := x.(children := x.children + [n])];
    assert (u + [NodeRec(e.tag, [], Some(c), [])])[..n] == u;
    assert Starts([e], n) == [n];
    assert FlatKids([e], c, n) == Flat(e, Some(c), n) + [];
  }

  /** The arena of a body whose node is the last one, `n`. */
  lemma BodyArena(nodes: seq<NodeRec>, n: nat, e: Elem, parent: Option<nat>)
    requires n + 1 == |nodes| && nodes[n] == NodeRec(e.tag, [], parent, [])
    ensures e.kids == [] ==> nodes[n := nodes[n].(text := e.text)] == nodes[..n] + Flat(e, parent, n)
    ensures e.text == [] ==> AddKids(nodes, n, e.kids) == nodes[..n] + Flat(e, parent, n)
  {
    var x := NodeRec(e.tag, e.text, parent, Starts(e.kids, n + 1));
    assert Flat(e, parent, n) == [x] + FlatKids(e.kids, n, n + 1);
    assert nodes[..n] + [nodes[n]] == nodes;
    if e.kids == [] {
      assert nodes[n := nodes[n].(text := e.text)] == nodes[..n] + [x];
    }
    if e.text == [] {
      assert nodes[n].children + Starts(e.kids, n + 1) == Starts(e.kids, n + 1);
      assert nodes[n].(children := Starts(e.kids, n + 1)) == x;
      assert nodes[n := nodes[n].(children := nodes[n].children + Starts(e.kids, n + 1))] == nodes[..n] + [x];
    }
  }

  /** After the text and closing tag of a leaf `e` at node `n`, the arena is `Parsed`'s. */
  lemma LeafState(ps: PState, n: nat, e: Elem)
    requires n + 1 == |ps.nodes| && ps.nodes[n] == NodeRec(e.tag, [], ps.nodes[n].parent, [])
    requires e.kids == [] && ps.state == ChildNode
    ensures Texted(ps, n, e.text).nodes[n].tag == e.tag
    ensures e.text == [] ==> Texted(ps, n, e.text) == ps
    ensures Parsed(ps, n, e) == Closed(Texted(ps, n, e.text), n)
  {
    BodyArena(ps.nodes, n, e, ps.nodes[n].parent);
    if e.text == [] {
      assert ps.nodes[n := ps.nodes[n].(text := e.text)] == ps.nodes;
    }
  }

  /** After the children and closing tag of `e` at node `n`, the arena is `Parsed`'s. */
  lemma InnerState(ps: PState, n: nat, e: Elem)
    requires n + 1 == |ps.nodes| && ps.nodes[n] == NodeRec(e.tag, [], ps.nodes[n].parent, [])
    requires e.text == [] && ps.state == ChildNode
    ensures n < |AddKids(ps.nodes, n, e.kids)| && AddKids(ps.nodes, n, e.kids)[n].tag == e.tag
    ensures Parsed(ps, n, e) == Closed(ps.(nodes := AddKids(ps.nodes, n, e.kids)), n)
  {
    BodyArena(ps.nodes, n, e, ps.nodes[n].parent);
    AddKidsTag(ps.nodes, n, e.kids);
  }

  // ---------------------------------------------------------------------------
  // Facts about the text

  lemma StripNonEmpty(s: string)
    requires s != [] && RightTrimmed(s)
    ensures Strip(s) != []
  {
    StripSpec(s);
  }

  lemma TrimmedAppend(a: string, r: string)
    requires RightTrimmed(r) && (r != [] || RightTrimmed(a))
    ensures RightTrimmed(a + r)
  {
    if r == [] {
      assert a + r == a;
    }
  }

  /** A closing tag and trimmed text after it: starts with `<`, ends with no whitespace. */
  lemma CloseTagTrimmed(tag: string, rest: string)
    requires RightTrimmed(rest)
    ensures var m := "</" + tag + ">" + rest;
      m[0] == '<' && !IsSpace(m[|m| - 1]) && RightTrimmed(m)
  {
    TrimmedAppend("</" + tag + ">", rest);
  }

  /** A body ends with the `>` of its closing tag. */
  lemma BodyEnds(e: Elem, d: nat)
    ensures Body(e, d) != [] && Body(e, d)[|Body(e, d)| - 1] == '>'
  {
    var close := "</" + e.tag + ">";
    assert Close(e, d) == (if e.kids == [] then "" else Line(d)) + close;
    assert Body(e, d) == e.text + RenderKids(e.kids, d + 1) + (if e.kids == [] then "" else Line(d)) + close;
  }

  /** An element on its own line: the opening tag, then the body. */
  lemma ElemText(e: Elem, d: nat, rest: string)
    requires RightTrimmed(rest)
    ensures Line(d) + Render(e, d) + rest == Line(d) + "<" + e.tag + ">" + (Body(e, d) + rest)
    ensures Body(e, d) + rest != [] && RightTrimmed(Body(e, d) + rest)
  {
    BodyEnds(e, d);
    TrimmedAppend(Body(e, d), rest);
  }

  /** The body of a leaf: its text, then the closing tag. */
  lemma LeafText(e: Elem, d: nat, rest: string)
    requires e.kids == [] && RightTrimmed(rest)
    ensures Body(e, d) + rest == e.text + ("</" + e.tag + ">" + rest)
    ensures e.text == [] ==> Body(e, d) + rest == "</" + e.tag + ">" + rest
    ensures var m := "</" + e.tag + ">" + rest; m[0] == '<' && RightTrimmed(m)
  {
    CloseTagTrimmed(e.tag, rest);
    assert Body(e, d) == e.text + ("</" + e.tag + ">");
  }

  /** The body of an element with children: the children, then the closing tag on its own line. */
  lemma InnerText(e: Elem, d: nat, rest: string)
    requires e.kids != [] && e.text == [] && RightTrimmed(rest)
    ensures Body(e, d) + rest == RenderKids(e.kids, d + 1) + (Close(e, d) + rest)
    ensures Close(e, d) + rest != [] && RightTrimmed(Close(e, d) + rest)
    ensures Strip(Close(e, d) + rest) == "</" + e.tag + ">" + rest
  {
    var close := "</" + e.tag + ">";
    CloseTagTrimmed(e.tag, rest);
    assert Close(e, d) + rest == Line(d) + (close + rest) + [];
    TrimmedAppend(Line(d), close + rest);
    StripAround(Line(d), close + rest, []);
  }

  // ---------------------------------------------------------------------------
  // The round trip

  /** What a run does next with the text after a closing tag: it ends when nothing but
      whitespace is left, and otherwise goes on with the stripped text. */
  function After(ps: PState, rest: string, k: nat): Outcome
    requires Linked(ps)
  {
    if Strip(rest) == [] then Finished(ps) else Run(ps, Strip(rest), k)
  }

  /** The state after the body of node `n`, the last one, holding the element `e`:
      `e`'s nodes in place of `n`, and `n`'s parent as the current node. */
  function Parsed(ps: PState, n: nat, e: Elem): PState
    requires n < |ps.nodes|
  {
    PState(ps.nodes[..n] + Flat(e, ps.nodes[n].parent, n), ps.root, ps.nodes[n].parent, ChildNode)
  }

  /** The node of an element keeps its tag when its children are added. */
  lemma AddKidsTag(nodes: seq<NodeRec>, c: nat, ks: seq<Elem>)
    requires c < |nodes|
    ensures c < |AddKids(nodes, c, ks)| && AddKids(nodes, c, ks)[c].tag == nodes[c].tag
  {
  }

  /**
   * The body of an element whose opening tag made node `n`: its text, its
   * children and its closing tag take `BodySteps(e)` steps and leave the
   * arena holding `e`'s nodes, with the parent of `n` current again.
   */
  lemma {:induction false} ParseBody(e: Elem, d: nat, ps: PState, n: nat, rest: string, fuel: nat, k: nat)
    requires WellFormed(e) && Linked(ps) && ps.state == ChildNode && ps.current == Some(n)
    requires n + 1 == |ps.nodes| && ps.nodes[n] == NodeRec(e.tag, [], ps.nodes[n].parent, [])
    requires RightTrimmed(rest) && fuel == BodySteps(e) + k
    ensures Linked(Parsed(ps, n, e))
    ensures Run(ps, Body(e, d) + rest, fuel) == After(Parsed(ps, n, e), rest, k)
    decreases e, 1
  {
    if e.kids == [] {
      ParseLeaf(e, d, ps, n, rest, fuel, k);
    } else {
      ParseInner(e, d, ps, n, rest, fuel, k);
    }
  }

  /** The body of an element without children: its text, if any, and its closing tag. */
  lemma ParseLeaf(e: Elem, d: nat, ps: PState, n: nat, rest: string, fuel: nat, k: nat)
    requires WellFormed(e) && e.kids == [] && Linked(ps) && ps.state == ChildNode && ps.current == Some(n)
    requires n + 1 == |ps.nodes| && ps.nodes[n] == NodeRec(e.tag, [], ps.nodes[n].parent, [])
    requires RightTrimmed(rest) && fuel == BodySteps(e) + k
    ensures Linked(Parsed(ps, n, e))
    ensures Run(ps, Body(e, d) + rest, fuel) == After(Parsed(ps, n, e), rest, k)
  {
    LeafText(e, d, rest);
    LeafState(ps, n, e);
    if e.text == [] {
      CloseNow(ps, rest, k);
    } else {
      var m := 2 + k;
      assert fuel == 2 + m;
      TextSteps(ps, e.text, "</" + e.tag + ">" + rest, m);
      CloseNow(Texted(ps, n, e.text), rest, k);
    }
  }

  /** The body of an element with children: each child on its own line, then the
      closing tag on a line of its own. */
  lemma {:induction false} ParseInner(e: Elem, d: nat, ps: PState, n: nat, rest: string, fuel: nat, k: nat)
    requires WellFormed(e) && e.kids != [] && Linked(ps) && ps.state == ChildNode && ps.current == Some(n)
    requires n + 1 == |ps.nodes| && ps.nodes[n] == NodeRec(e.tag, [], ps.nodes[n].parent, [])
    requires RightTrimmed(rest) && fuel == BodySteps(e) + k
    ensures Linked(Parsed(ps, n, e))
    ensures Run(ps, Body(e, d) + rest, fuel) == After(Parsed(ps, n, e), rest, k)
    decreases e, 0
  {
    InnerText(e, d, rest);
    InnerState(ps, n, e);
    var m := 2 + k;
    ParseKids(e.kids, d + 1, ps, n, Close(e, d) + rest, fuel, m);
    CloseNow(ps.(nodes := AddKids(ps.nodes, n, e.kids)), rest, k);
  }

  /** The opening tag of an element on its own line. */
  lemma OpenElem(e: Elem, d: nat, ps: PState, rest: string, m: nat)
    requires TagOk(e.tag) && Linked(ps) && ps.state == ChildNode && ps.current.Some?
    requires RightTrimmed(rest)
    ensures Linked(Opened(ps, ps.current.value, e.tag))
    ensures Run(ps, Line(d) + Render(e, d) + rest, 2 + m) == Run(Opened(ps, ps.current.value, e.tag), Body(e, d) + rest, m)
  {
    ElemText(e, d, rest);
    OpenSteps(ps, Line(d), e.tag, Body(e, d) + rest, m);
  }

  /**
   * An element on its own line below the current node `c`: it takes
   * `ElemSteps(e)` steps, appends `e`'s nodes to the arena and `e`'s root to
   * the children of `c`, and leaves `c` current.
   */
  lemma {:induction false} ParseElem(e: Elem, d: nat, ps: PState, c: nat, rest: string, fuel: nat, k: nat)
    requires WellFormed(e) && Linked(ps) && ps.state == ChildNode && ps.current == Some(c)
    requires rest != [] && RightTrimmed(rest) && fuel == ElemSteps(e) + k
    ensures Linked(ps.(nodes := AddKids(ps.nodes, c, [e])))
    ensures Run(ps, Line(d) + Render(e, d) + rest, fuel) == Run(ps.(nodes := AddKids(ps.nodes, c, [e])), Strip(rest), k)
    decreases e, 2
  {
    var m := fuel - 2;
    OpenElem(e, d, ps, rest, m);
    OpenedState(ps, c, e);
    ParseBody(e, d, Opened(ps, c, e.tag), |ps.nodes|, rest, m, k);
    StripNonEmpty(rest);
  }

  /** Elements one per line below the current node `c`, in order. */
  lemma {:induction false} ParseKids(ks: seq<Elem>, d: nat, ps: PState, c: nat, rest: string, fuel: nat, k: nat)
    requires AllWellFormed(ks) && Linked(ps) && ps.state == ChildNode && ps.current == Some(c)
    requires rest != [] && RightTrimmed(rest) && k >= 1 && fuel == KidsSteps(ks) + k
    ensures Linked(ps.(nodes := AddKids(ps.nodes, c, ks)))
    ensures Run(ps, RenderKids(ks, d) + rest, fuel) == Run(ps.(nodes := AddKids(ps.nodes, c, ks)), Strip(rest), k)
    decreases ks, 1
  {
    if ks == [] {
      AddNoKids(ps.nodes, c);
      assert RenderKids(ks, d) + rest == rest;
      RunStripped(ps, rest, k);
    } else {
      ParseKidsCons(ks, d, ps, c, rest, fuel, k);
    }
  }

  /** The first child, then the others. */
  lemma {:induction false} ParseKidsCons(ks: seq<Elem>, d: nat, ps: PState, c: nat, rest: string, fuel: nat, k: nat)
    requires ks != [] && AllWellFormed(ks) && Linked(ps) && ps.state == ChildNode && ps.current == Some(c)
    requires rest != [] && RightTrimmed(rest) && k >= 1 && fuel == KidsSteps(ks) + k
    ensures Linked(ps.(nodes := AddKids(ps.nodes, c, ks)))
    ensures Run(ps, RenderKids(ks, d) + rest, fuel) == Run(ps.(nodes := AddKids(ps.nodes, c, ks)), Strip(rest), k)
    decreases ks, 0
  {
    var tail := RenderKids(ks[1..], d) + rest;
    KidsText(ks, d, rest);
    var m := KidsSteps(ks[1..]) + k;
    assert fuel == ElemSteps(ks[0]) + m;
    assert WellFormed(ks[0]);
    ParseElem(ks[0], d, ps, c, tail, fuel, m);
    var ps1 := ps.(nodes := AddKids(ps.nodes, c, [ks[0]]));
    RunStripped(ps1, tail, m);
    assert AllWellFormed(ks[1..]);
    ParseKids(ks[1..], d, ps1, c, rest, m, k);
    AddKidsCons(ps.nodes, c, ks);
  }

  /** The text of a non-empty list of children: the first one's line, then the rest. */
  lemma KidsText(ks: seq<Elem>, d: nat, rest: string)
    requires ks != [] && rest != [] && RightTrimmed(rest)
    ensures RenderKids(ks, d) + rest == Line(d) + Render(ks[0], d) + (RenderKids(ks[1..], d) + rest)
    ensures RenderKids(ks[1..], d) + rest != [] && RightTrimmed(RenderKids(ks[1..], d) + rest)
  {
    TrimmedAppend(RenderKids(ks[1..], d), rest);
  }

  /** The first step on a document reads the root's opening tag. */
  lemma FirstTagOn(tag: string, r: string)
    requires TagOk(tag)
    ensures StepFirstTag(Init(), "\n<" + tag + ">" + r)
      == (PState([NodeRec(tag, [], None, [])], Some(0), Some(0), ChildNode), r)
  {
    var s := "\n<" + tag + ">" + r;
    var n := |tag|;
    assert s[..1] == "\n";
    FindFirst(s, '<', 1);
    assert s[..n + 2] == "\n<" + tag;
    FindFirst(s, '>', n + 2);
    assert Slice(s, 2, n + 2) == tag;
    assert SliceFrom(s, n + 3) == r;
    assert Init().nodes + [NodeRec(tag, [], None, [])] == [NodeRec(tag, [], None, [])];
  }

  lemma DocumentText(e: Elem)
    ensures Document(e) == "\n<" + e.tag + ">" + (Body(e, 0) + "\n")
  {
    assert Line(0) == "\n";
  }

  /** The first step reads the root's opening tag; what the document has after the
      root's closing tag is whitespace, which the next step strips. */
  lemma DocumentStart(e: Elem, fuel: nat, m: nat)
    requires TagOk(e.tag) && m >= 1 && fuel == 1 + m
    ensures Run(Init(), Document(e), fuel)
      == Run(PState([NodeRec(e.tag, [], None, [])], Some(0), Some(0), ChildNode), Body(e, 0) + [], m)
  {
    var s, b := Document(e), Body(e, 0);
    var ps := PState([NodeRec(e.tag, [], None, [])], Some(0), Some(0), ChildNode);
    DocumentText(e);
    FirstTagOn(e.tag, b + "\n");
    assert Step(Init(), s) == Ok((ps, b + "\n"));
    RunNext(Init(), s, fuel);
    RunStripped(ps, b + "\n", m);
    StripSpaceSuffix(b, "\n");
    RunStripped(ps, b, m);
    assert b + [] == b;
  }

  /** With nothing after the root's closing tag the run ends there. */
  lemma AfterEnd(ps: PState, k: nat)
    requires Linked(ps)
    ensures After(ps, [], k) == Finished(ps)
  {
    assert Strip([]) == [];
  }

  lemma RootParsed(e: Elem)
    ensures Parsed(PState([NodeRec(e.tag, [], None, [])], Some(0), Some(0), ChildNode), 0, e)
      == PState(Flat(e, None, 0), Some(0), None, ChildNode)
  {
    assert [NodeRec(e.tag, [], None, [])][..0] + Flat(e, None, 0) == Flat(e, None, 0);
  }

  /**
   * The round trip: the drive loop run on the document of a well-formed
   * element takes `1 + BodySteps(e)` steps, raises nothing, and finishes with
   * the element's nodes in pre-order, the root at position 0, and no current
   * node.
   */
  lemma ParseDocument(e: Elem, fuel: nat)
    requires WellFormed(e) && fuel == 1 + BodySteps(e)
    ensures Run(Init(), Document(e), fuel) == Finished(PState(Flat(e, None, 0), Some(0), None, ChildNode))
  {
    var ps := PState([NodeRec(e.tag, [], None, [])], Some(0), Some(0), ChildNode);
    var n := fuel - 1;
    DocumentStart(e, fuel, n);
    ParseBody(e, 0, ps, 0, [], n, 0);
    AfterEnd(Parsed(ps, 0, e), 0);
    RootParsed(e);
  }
  /** Whatever number of steps a run on such a document takes, if it ends, it ends as
      `ParseDocument` says: no exception, and the element's nodes. */
  lemma DocumentOutcome(e: Elem, n: nat)
    requires WellFormed(e)
    ensures var o := Run(Init(), Document(e), n);
      o.Pending? || o == Finished(PState(Flat(e, None, 0), Some(0), None, ChildNode))
  {
    var f := 1 + BodySteps(e);
    ParseDocument(e, f);
    if !Run(Init(), Document(e), n).Pending? {
      RunEndsOnce(Init(), Document(e), n, f);
    }
  }

  // ---------------------------------------------------------------------------
  // The sample document

  function Chapter(number: string, title: string): Elem {
    Elem("chapter", "", [Elem("number", number, []), Elem("title", title, [])])
  }

  /** The book the example's main program parses. */
  const Book: Elem :=
    Elem("book", "", [
      Elem("author", "Dusty Phillips", []),
      Elem("publisher", "Packt Publishing", []),
      Elem("title", "Python 3 Object Oriented Programming", []),
      Elem("content", "", [Chapter("1", "Object Oriented Design"), Chapter("2", "Objects In Python")])])

  lemma LeafWellFormed(tag: string, text: string)
    requires TagOk(tag) && TextOk(text)
    ensures WellFormed(Elem(tag, text, []))
  {
  }

  lemma ParentWellFormed(tag: string, kids: seq<Elem>)
    requires TagOk(tag) && AllWellFormed(kids)
    ensures WellFormed(Elem(tag, "", kids))
  {
  }

  lemma LeafFlat(tag: string, text: string, parent: Option<nat>, n: nat)
    ensures Size(Elem(tag, text, [])) == 1
    ensures Flat(Elem(tag, text, []), parent, n) == [NodeRec(tag, text, parent, [])]
  {
    assert Flat(Elem(tag, text, []), parent, n) == [NodeRec(tag, text, parent, [])] + [];
  }

  lemma ChapterWellFormed(number: string, title: string)
    requires TextOk(number) && TextOk(title)
    ensures WellFormed(Chapter(number, title))
  {
    LeafWellFormed("number", number);
    LeafWellFormed("title", title);
    ParentWellFormed("chapter", [Elem("number", number, []), Elem("title", title, [])]);
  }

  lemma ChapterFlat(number: string, title: string, p: nat, n: nat)
    ensures Size(Chapter(number, title)) == 3
    ensures Flat(Chapter(number, title), Some(p), n) == [
      NodeRec("chapter", "", Some(p), [n + 1, n + 2]),
      NodeRec("number", number, Some(n), []),
      NodeRec("title", title, Some(n), [])]
  {
    var a, b := Elem("number", number, []), Elem("title", title, []);
    LeafFlat("number", number, Some(n), n + 1);
    LeafFlat("title", title, Some(n), n + 2);
    assert [a, b][1..] == [b] && [b][1..] == [];
    assert SizeKids([b]) == 1;
    assert FlatKids([b], n, n + 2) == Flat(b, Some(n), n + 2) + [];
    assert Starts([a, b], n + 1) == [n + 1, n + 2];
  }

  lemma ContentWellFormed()
    ensures WellFormed(Book.kids[3])
  {
    ChapterWellFormed("1", "Object Oriented Design");
    ChapterWellFormed("2", "Objects In Python");
    ParentWellFormed("content", [Chapter("1", "Object Oriented Design"), Chapter("2", "Objects In Python")]);
  }

  lemma AuthorWellFormed()
    ensures WellFormed(Book.kids[0])
  {
    LeafWellFormed("author", "Dusty Phillips");
  }

  lemma PublisherWellFormed()
    ensures WellFormed(Book.kids[1])
  {
    LeafWellFormed("publisher", "Packt Publishing");
  }

  lemma TitleTextOk()
    ensures TextOk("Python 3 Object Oriented Programming")
  {
  }

  lemma TitleWellFormed()
    ensures WellFormed(Book.kids[2])
  {
    TitleTextOk();
    LeafWellFormed("title", "Python 3 Object Oriented Programming");
  }

  lemma BookWellFormed()
    ensures WellFormed(Book)
  {
    AuthorWellFormed();
    PublisherWellFormed();
    TitleWellFormed();
    ContentWellFormed();
    ParentWellFormed("book", Book.kids);
  }

  /** The `content` element of the sample, with any chapter numbers and titles. */
  lemma ContentFlat(n1: string, t1: string, n2: string, t2: string, p: nat, n: nat)
    ensures Size(Elem("content", "", [Chapter(n1, t1), Chapter(n2, t2)])) == 7
    ensures Flat(Elem("content", "", [Chapter(n1, t1), Chapter(n2, t2)]), Some(p), n) == [
      NodeRec("content", "", Some(p), [n + 1, n + 4]),
      NodeRec("chapter", "", Some(n), [n + 2, n + 3]),
      NodeRec("number", n1, Some(n + 1), []),
      NodeRec("title", t1, Some(n + 1), []),
      NodeRec("chapter", "", Some(n), [n + 5, n + 6]),
      NodeRec("number", n2, Some(n + 4), []),
      NodeRec("title", t2, Some(n + 4), [])]
  {
    var a, b := Chapter(n1, t1), Chapter(n2, t2);
    ChapterFlat(n1, t1, n, n + 1);
    ChapterFlat(n2, t2, n, n + 4);
    assert [a, b][1..] == [b] && [b][1..] == [];
    assert SizeKids([b]) == 3;
    assert FlatKids([b], n, n + 4) == Flat(b, Some(n), n + 4) + [];
    assert Starts([b], n + 4) == [n + 4] + [];
    assert Starts([a, b], n + 1) == [n + 1] + Starts([b], n + 4);
    assert FlatKids([a, b], n, n + 1) == Flat(a, Some(n), n + 1) + FlatKids([b], n, n + 4);
    var e := Elem("content", "", [a, b]);
    assert Flat(b, Some(n), n + 4) + [] == Flat(b, Some(n), n + 4);
    assert Starts([a, b], n + 1) == [n + 1, n + 4];
    assert e.kids == [a, b];
    assert Flat(e, Some(p), n) == [NodeRec("content", "", Some(p), [n + 1, n + 4])] + FlatKids([a, b], n, n + 1);
    assert Flat(e, Some(p), n) == [NodeRec("content", "", Some(p), [n + 1, n + 4])] + Flat(a, Some(n), n + 1) + Flat(b, Some(n), n + 4);
  }

  /** The sample's shape, with any texts. */
  lemma BookShapeFlat(author: string, publisher: string, title: string, n1: string, t1: string, n2: string, t2: string)
    ensures var content := Elem("content", "", [Chapter(n1, t1), Chapter(n2, t2)]);
      var book := Elem("book", "", [Elem("author", author, []), Elem("publisher", publisher, []), Elem("title", title, []), content]);
      Flat(book, None, 0) == [
        NodeRec("book", "", None, [1, 2, 3, 4]),
        NodeRec("author", author, Some(0), []),
        NodeRec("publisher", publisher, Some(0), []),
        NodeRec("title", title, Some(0), []),
        NodeRec("content", "", Some(0), [5, 8]),
        NodeRec("chapter", "", Some(4), [6, 7]),
        NodeRec("number", n1, Some(5), []),
        NodeRec("title", t1, Some(5), []),
        NodeRec("chapter", "", Some(4), [9, 10]),
        NodeRec("number", n2, Some(8), []),
        NodeRec("title", t2, Some(8), [])]
  {
    var a, b, c := Elem("author", author, []), Elem("publisher", publisher, []), Elem("title", title, []);
    var d := Elem("content", "", [Chapter(n1, t1), Chapter(n2, t2)]);
    var ks := [a, b, c, d];
    LeafFlat("author", author, Some(0), 1);
    LeafFlat("publisher", publisher, Some(0), 2);
    LeafFlat("title", title, Some(0), 3);
    ContentFlat(n1, t1, n2, t2, 0, 4);
    FourKids(a, b, c, d);
    var book := Elem("book", "", ks);
    assert book.kids == ks;
    assert Flat(book, None, 0) == [NodeRec("book", "", None, [1, 2, 3, 4])] + FlatKids(ks, 0, 1);
  }

  /** Four children of sizes 1, 1, 1 and 7 under node 0 start at 1, 2, 3 and 4. */
  lemma FourKids(a: Elem, b: Elem, c: Elem, d: Elem)
    requires Size(a) == 1 && Size(b) == 1 && Size(c) == 1
    ensures Starts([a, b, c, d], 1) == [1, 2, 3, 4]
    ensures FlatKids([a, b, c, d], 0, 1) == Flat(a, Some(0), 1) + Flat(b, Some(0), 2) + Flat(c, Some(0), 3) + Flat(d, Some(0), 4)
  {
    var ks := [a, b, c, d];
    assert ks[1..] == [b, c, d] && [b, c, d][1..] == [c, d] && [c, d][1..] == [d] && [d][1..] == [];
    assert Starts([d], 4) == [4] + [];
    assert Starts([c, d], 3) == [3] + Starts([d], 4);
    assert Starts([b, c, d], 2) == [2] + Starts([c, d], 3);
    assert Starts(ks, 1) == [1] + Starts([b, c, d], 2);
    assert FlatKids([d], 0, 4) == Flat(d, Some(0), 4) + [];
    assert FlatKids([c, d], 0, 3) == Flat(c, Some(0), 3) + FlatKids([d], 0, 4);
    assert FlatKids([b, c, d], 0, 2) == Flat(b, Some(0), 2) + FlatKids([c, d], 0, 3);
    assert FlatKids(ks, 0, 1) == Flat(a, Some(0), 1) + FlatKids([b, c, d], 0, 2);
    assert Flat(d, Some(0), 4) + [] == Flat(d, Some(0), 4);
  }

  /** The arena the parser builds from the sample document. */
  lemma BookArena()
    ensures Flat(Book, None, 0) == [
      NodeRec("book", "", None, [1, 2, 3, 4]),
      NodeRec("author", "Dusty Phillips", Some(0), []),
      NodeRec("publisher", "Packt Publishing", Some(0), []),
      NodeRec("title", "Python 3 Object Oriented Programming", Some(0), []),
      NodeRec("content", "", Some(0), [5, 8]),
      NodeRec("chapter", "", Some(4), [6, 7]),
      NodeRec("number", "1", Some(5), []),
      NodeRec("title", "Object Oriented Design", Some(5), []),
      NodeRec("chapter", "", Some(4), [9, 10]),
      NodeRec("number", "2", Some(8), []),
      NodeRec("title", "Objects In Python", Some(8), [])]
  {
    BookShapeFlat("Dusty Phillips", "Packt Publishing", "Python 3 Object Oriented Programming",
      "1", "Object Oriented Design", "2", "Objects In Python");
  }
}
