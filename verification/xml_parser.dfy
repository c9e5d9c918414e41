/**
 * The `Parser` context object of the State pattern example and the state
 * objects' `process` methods, as code that updates the parser in place.
 * Each method is proved against the step functions of `XmlState`, and the
 * drive loop against `XmlState.Run`.
 */
module XmlParser {
  import opened Common
  import opened PyStr
  import opened XmlState
  import opened XmlTree

  class Parser {
    /** The text given to the constructor. */
    const parseString: string
    /** Every `Node` created so far; a node is named by its position. */
    var nodes: seq<NodeRec>
    var root: Option<nat>
    var current: Option<nat>
    var state: StateKind

    /** The parser's fields as one value. */
    function Snapshot(): PState
      reads this
    {
      PState(nodes, root, current, state)
    }

    /** `Parser.__init__`: no root, no current node, and the `FirstTag` state. */
    constructor (parseString: string)
      ensures this.parseString == parseString
      ensures Snapshot() == Init()
      ensures Valid(Snapshot())
    {
      this.parseString := parseString;
      nodes := [];
      root := None;
      current := None;
      state := FirstTag;
    }

    /** `FirstTag.process` */
    method ProcessFirstTag(s: string) returns (rest: string)
      requires state == FirstTag
      modifies this
      ensures (Snapshot(), rest) == StepFirstTag(old(Snapshot()), s)
    {
      var iStart := Find(s, '<');
      var iEnd := Find(s, '>');
      var tagName := Slice(s, iStart + 1, iEnd);
      var n := |nodes|;
      nodes := nodes + [NodeRec(tagName, [], None, [])];
      root := Some(n);
      current := Some(n);
      state := ChildNode;
      rest := SliceFrom(s, iEnd + 1);
    }

    /** `ChildNode.process` */
    method ProcessChildNode(s: string) returns (rest: string)
      requires state == ChildNode
      modifies this
      ensures (Snapshot(), rest) == StepChildNode(old(Snapshot()), s)
    {
      var stripped := Strip(s);
      DispatchStartsWith(stripped);
      if StartsWith(stripped, "</") {
        state := CloseTag;
      } else if StartsWith(stripped, "<") {
        state := OpenTag;
      } else {
        state := TextNode;
      }
      rest := stripped;
    }

    /** `OpenTag.process`; an error leaves the parser untouched. */
    method ProcessOpenTag(s: string) returns (r: Result<string, Error>)
      requires state == OpenTag && Linked(Snapshot())
      modifies this
      ensures r.Ok? ==> StepOpenTag(old(Snapshot()), s) == Ok((Snapshot(), r.value))
      ensures r.Err? ==> StepOpenTag(old(Snapshot()), s) == Err(r.error) && Snapshot() == old(Snapshot())
    {
      var iStart := Find(s, '<');
      var iEnd := Find(s, '>');
      var tagName := Slice(s, iStart + 1, iEnd);
      if current.None? {
        return Err(NoneHasNoAttribute);
      }
      var c := current.value;
      var n := |nodes|;
      nodes := nodes[c := nodes[c].(children := nodes[c].children + [n])] + [NodeRec(tagName, [], Some(c), [])];
      current := Some(n);
      state := ChildNode;
      r := Ok(SliceFrom(s, iEnd + 1));
    }

    /** `CloseTag.process`; an error leaves the parser untouched. */
    method ProcessCloseTag(s: string) returns (r: Result<string, Error>)
      requires state == CloseTag && Linked(Snapshot())
      modifies this
      ensures r.Ok? ==> StepCloseTag(old(Snapshot()), s) == Ok((Snapshot(), r.value))
      ensures r.Err? ==> StepCloseTag(old(Snapshot()), s) == Err(r.error) && Snapshot() == old(Snapshot())
    {
      var iStart := Find(s, '<');
      var iEnd := Find(s, '>');
      var slash := Index(s, iStart + 1);
      if slash.None? {
        return Err(IndexOutOfRange);
      }
      if slash.value != '/' {
        return Err(AssertionFailed);
      }
      var tagName := Slice(s, iStart + 2, iEnd);
      if current.None? {
        return Err(NoneHasNoAttribute);
      }
      if tagName != nodes[current.value].tag {
        return Err(AssertionFailed);
      }
      current := nodes[current.value].parent;
      state := ChildNode;
      r := Ok(Strip(SliceFrom(s, iEnd + 1)));
    }

    /** `TextNode.process`; an error leaves the parser untouched. */
    method ProcessTextNode(s: string) returns (r: Result<string, Error>)
      requires state == TextNode && Linked(Snapshot())
      modifies this
      ensures r.Ok? ==> StepTextNode(old(Snapshot()), s) == Ok((Snapshot(), r.value))
      ensures r.Err? ==> StepTextNode(old(Snapshot()), s) == Err(r.error) && Snapshot() == old(Snapshot())
    {
      var iStart := Find(s, '<');
      var text := Slice(s, 0, iStart);
      if current.None? {
        return Err(NoneHasNoAttribute);
      }
      var c := current.value;
      nodes := nodes[c := nodes[c].(text := text)];
      state := ChildNode;
      r := Ok(SliceFrom(s, iStart));
    }

    /** `self.state.process(remaining_string, self)`: the current state's step. */
    method ProcessStep(s: string) returns (r: Result<string, Error>)
      requires Linked(Snapshot())
      modifies this
      ensures r.Ok? ==> Step(old(Snapshot()), s) == Ok((Snapshot(), r.value))
      ensures r.Err? ==> Step(old(Snapshot()), s) == Err(r.error) && Snapshot() == old(Snapshot())
    {
      match state
      case FirstTag =>
        var rest := ProcessFirstTag(s);
        r := Ok(rest);
      case ChildNode =>
        var rest := ProcessChildNode(s);
        r := Ok(rest);
      case OpenTag =>
        r := ProcessOpenTag(s);
      case CloseTag =>
        r := ProcessCloseTag(s);
      case TextNode =>
        r := ProcessTextNode(s);
    }

    /**
     * `Parser.process`: apply the current state to the remaining text, and go
     * on with what it returns for as long as that is non-empty.  On ready text
     * this stops; it ends exactly as `Run` does after `steps` steps, either with
     * all text consumed or with the exception of the last step.
     */
    method Process(remaining: string) returns (err: Option<Error>, ghost steps: nat)
      requires Valid(Snapshot()) && Ready(state, remaining)
      modifies this
      ensures Valid(Snapshot())
      ensures err.None? ==> Run(old(Snapshot()), remaining, steps) == Finished(Snapshot())
      ensures err.Some? ==> Run(old(Snapshot()), remaining, steps) == Failed(err.value, Snapshot())
    {
      ghost var start := Snapshot();
      var rem := remaining;
      steps := 0;
      while true
        invariant Valid(Snapshot()) && Ready(state, rem)
        invariant Run(start, remaining, steps) == Pending(Snapshot(), rem)
        decreases |rem|, Rank(state)
      {
        ghost var before := Snapshot();
        var r := ProcessStep(rem);
        RunSnoc(start, remaining, steps, before, rem);
        StepValid(before, rem);
        steps := steps + 1;
        match r
        case Err(e) =>
          return Some(e), steps;
        case Ok(rest) =>
          if rest == [] {
            return None, steps;
          }
          StepProgress(before, rem);
          rem := rest;
      }
    }

    /** `Parser.start`: process the whole text given to the constructor. */
    method Start() returns (err: Option<Error>, ghost steps: nat)
      requires Valid(Snapshot()) && Ready(state, parseString)
      modifies this
      ensures Valid(Snapshot())
      ensures err.None? ==> Run(old(Snapshot()), parseString, steps) == Finished(Snapshot())
      ensures err.Some? ==> Run(old(Snapshot()), parseString, steps) == Failed(err.value, Snapshot())
    {
      err, steps := Process(parseString);
    }
  }

  /**
   * The example's main program after `p.start()`: a work list that starts as
   * `[p.root]`; take the first node, print it, and put its children in front
   * of what is left.  The printed lines are the pre-order walk from the root,
   * which meets every node once (`XmlTree.WalkVisitsEachOnce`).
   */
  method PrintTree(p: Parser) returns (lines: seq<string>)
    requires Valid(p.Snapshot()) && p.root.Some?
    ensures IsTree(p.nodes)
    ensures lines == Lines(p.nodes, Subtree(p.nodes, 0))
  {
    ValidTree(p.Snapshot());
    lines := Walk(p.nodes);
  }

  /** The work-list loop itself, over the nodes of a tree rooted at node 0. */
  method Walk(nodes: seq<NodeRec>) returns (lines: seq<string>)
    requires IsTree(nodes) && 0 < |nodes|
    ensures lines == Lines(nodes, Subtree(nodes, 0))
  {
    var work := [0];
    ghost var visited: seq<nat> := [];
    lines := [];
    WalkStart(nodes);
    while work != []
      invariant Bounded(work, -1, |nodes|) && Bounded(visited, -1, |nodes|)
      invariant visited + Forest(nodes, work, -1) == Subtree(nodes, 0)
      invariant lines == Lines(nodes, visited)
      decreases |Forest(nodes, work, -1)|
    {
      ghost var before := work;
      var node := work[0];
      work := work[1..];
      lines := lines + [NodeStr(nodes[node])];
      assert [node] + work == before;
      WalkStep(nodes, node, work);
      LinesSnoc(nodes, visited, node);
      AppendAssoc(visited, [node], Forest(nodes, nodes[node].children + work, -1));
      visited := visited + [node];
      work := nodes[node].children + work;
    }
    assert visited + [] == visited;
  }
}
