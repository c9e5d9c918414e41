/**
 * The unfinished first version of the State pattern example, kept at the top
 * of the repository.  Its `Node`, `Parser`, `FirstTag` and `ChildNode` are
 * those of the finished parser, but `OpenTag`, `CloseTag` and `TextNode` are
 * empty classes: the first step made in one of those states raises
 * `AttributeError`, since the object has no `process` method.  No node is
 * ever added below the root, so the parser keeps the root node itself rather
 * than an arena.
 */
module XmlDraft {
  import opened Common
  import opened PyStr
  import opened XmlState

  /** `AttributeError`: the state object of class `kind` has no `process`. */
  datatype Missing = MissingProcess(kind: StateKind)

  /** The draft parser's fields. */
  datatype Draft = Draft(root: Option<NodeRec>, current: Option<NodeRec>, state: StateKind)

  /** How a call of `Parser.start` ends. */
  datatype DraftOutcome = Done(final: Draft) | Raised(error: Missing, at: Draft)

  /** A freshly constructed parser. */
  function DraftInit(): Draft {
    Draft(None, None, FirstTag)
  }

  /** The root node `FirstTag.process` makes from `s`; the step is the finished parser's. */
  function FirstNode(s: string): NodeRec {
    StepFirstTag(Init(), s).0.nodes[0]
  }

  /** One call of `self.state.process(remaining_string, self)`. */
  function DraftStep(d: Draft, s: string): Result<(Draft, string), Missing> {
    match d.state
    case FirstTag => Ok((Draft(Some(FirstNode(s)), Some(FirstNode(s)), ChildNode), StepFirstTag(Init(), s).1))
    case ChildNode => Ok((d.(state := Dispatch(Strip(s))), Strip(s)))
    case _ => Err(MissingProcess(d.state))
  }

  /** A step that does not raise moves to a state of lower `Rank`. */
  lemma DraftStepRank(d: Draft, s: string)
    ensures DraftStep(d, s).Ok? ==> Rank(DraftStep(d, s).value.0.state) < Rank(d.state)
  {
  }

  /** `Parser.process`: step, and go on with the returned text while it is non-empty. */
  function DraftRun(d: Draft, s: string): DraftOutcome
    decreases Rank(d.state)
  {
    DraftStepRank(d, s);
    match DraftStep(d, s)
    case Err(e) => Raised(e, d)
    case Ok((d', rest)) => if rest == [] then Done(d') else DraftRun(d', rest)
  }

  /** What `FirstTag` leaves to be read. */
  function AfterFirstTag(s: string): string {
    StepFirstTag(Init(), s).1
  }

  /**
   * The whole behaviour of the draft: the first step always names a root, which
   * is also the current node; the parse completes exactly when nothing but
   * whitespace follows the first `>`, and otherwise raises in the state that
   * `ChildNode` chose for what follows.
   */
  lemma DraftStart(s: string)
    ensures DraftRun(DraftInit(), s).Done? <==> Strip(AfterFirstTag(s)) == []
    ensures DraftRun(DraftInit(), s).Done? ==>
      DraftRun(DraftInit(), s).final.root == DraftRun(DraftInit(), s).final.current == Some(FirstNode(s))
    ensures DraftRun(DraftInit(), s).Raised? ==>
      && Dispatch(Strip(AfterFirstTag(s))) != ChildNode
      && DraftRun(DraftInit(), s).error == MissingProcess(Dispatch(Strip(AfterFirstTag(s))))
      && DraftRun(DraftInit(), s).at == Draft(Some(FirstNode(s)), Some(FirstNode(s)), Dispatch(Strip(AfterFirstTag(s))))
  {
    var rest := AfterFirstTag(s);
    var d1 := Draft(Some(FirstNode(s)), Some(FirstNode(s)), ChildNode);
    assert DraftStep(DraftInit(), s) == Ok((d1, rest));
    if rest != [] {
      var t := Strip(rest);
      var d2 := d1.(state := Dispatch(t));
      assert DraftStep(d1, rest) == Ok((d2, t));
      if t != [] {
        assert Dispatch(t) != ChildNode;
        assert DraftStep(d2, t) == Err(MissingProcess(Dispatch(t)));
      }
    }
  }

  /** The root made by the first step: no parent, no children, no text, named by
      the text between the first `<` and the first `>`. */
  lemma FirstNodeIsRoot(s: string)
    ensures FirstNode(s).parent.None? && FirstNode(s).children == [] && FirstNode(s).text == []
    ensures forall i, e :: 0 <= i < e < |s| && s[i] == '<' && s[e] == '>' && '<' !in s[..i] && '>' !in s[..e] ==>
      FirstNode(s).tag == s[i + 1..e] && AfterFirstTag(s) == s[e + 1..]
  {
    FirstTagCreatesRoot(s);
  }

  /** A lone opening tag with whitespace after it, such as `"<a>  "`, parses to one
      root node with that tag, no children and no text. */
  lemma SingleTagCompletes(tag: string, w: string)
    requires '>' !in tag && AllSpace(w)
    ensures DraftRun(DraftInit(), "<" + tag + ">" + w).Done?
    ensures DraftRun(DraftInit(), "<" + tag + ">" + w).final.root == Some(NodeRec(tag, [], None, []))
  {
    var s := "<" + tag + ">" + w;
    assert s[0] == '<' && s[|tag| + 1] == '>';
    assert s[..0] == [] && s[..|tag| + 1] == "<" + tag;
    assert s[1..|tag| + 1] == tag && s[|tag| + 2..] == w;
    FirstNodeIsRoot(s);
    StripSpaceSuffix([], w);
    assert [] + w == w;
    DraftStart(s);
  }

  /** Anything but whitespace after the first tag makes the next step raise. */
  lemma FurtherContentFails(s: string)
    requires Strip(AfterFirstTag(s)) != []
    ensures DraftRun(DraftInit(), s).Raised?
    ensures DraftRun(DraftInit(), s).error.kind in {OpenTag, CloseTag, TextNode}
  {
    DraftStart(s);
  }

  /** The draft's `Parser`, with the fields its two working states update. */
  class DraftParser {
    const parseString: string
    var root: Option<NodeRec>
    var current: Option<NodeRec>
    var state: StateKind

    function Snapshot(): Draft
      reads this
    {
      Draft(root, current, state)
    }

    /** `Parser.__init__`: no root, no current node, state `FirstTag`. */
    constructor (parseString: string)
      ensures this.parseString == parseString
      ensures root.None? && current.None? && state == FirstTag
    {
      this.parseString := parseString;
      root := None;
      current := None;
      state := FirstTag;
    }

    /** `self.state.process(remaining_string, self)`; the three empty state classes raise. */
    method ProcessStep(s: string) returns (r: Result<string, Missing>)
      modifies this
      ensures r.Ok? ==> DraftStep(old(Snapshot()), s) == Ok((Snapshot(), r.value))
      ensures r.Err? ==> DraftStep(old(Snapshot()), s) == Err(r.error) && Snapshot() == old(Snapshot())
    {
      match state
      case FirstTag =>
        var iStart := Find(s, '<');
        var iEnd := Find(s, '>');
        var node := NodeRec(Slice(s, iStart + 1, iEnd), [], None, []);
        root := Some(node);
        current := Some(node);
        state := ChildNode;
        r := Ok(SliceFrom(s, iEnd + 1));
      case ChildNode =>
        var stripped := Strip(s);
        DispatchStartsWith(stripped);
        if StartsWith(stripped, "</") {
          state := CloseTag;
        } else if StartsWith(stripped, "<") {
          state := OpenTag;
        } else {
          state := TextNode;
        }
        r := Ok(stripped);
      case _ =>
        r := Err(MissingProcess(state));
    }

    /** `Parser.process`, as the loop its tail call amounts to. */
    method Process(remaining: string) returns (err: Option<Missing>)
      modifies this
      ensures err.None? ==> DraftRun(old(Snapshot()), remaining) == Done(Snapshot())
      ensures err.Some? ==> DraftRun(old(Snapshot()), remaining) == Raised(err.value, Snapshot())
    {
      var rem := remaining;
      while true
        invariant DraftRun(old(Snapshot()), remaining) == DraftRun(Snapshot(), rem)
        decreases Rank(state)
      {
        ghost var before := Snapshot();
        DraftStepRank(before, rem);
        var r := ProcessStep(rem);
        match r
        case Err(e) =>
          return Some(e);
        case Ok(rest) =>
          if rest == [] {
            return None;
          }
          rem := rest;
      }
    }

    /** `Parser.start`. */
    method Start() returns (err: Option<Missing>)
      modifies this
      ensures err.None? ==> DraftRun(old(Snapshot()), parseString) == Done(Snapshot())
      ensures err.Some? ==> DraftRun(old(Snapshot()), parseString) == Raised(err.value, Snapshot())
    {
      err := Process(parseString);
    }
  }
}
