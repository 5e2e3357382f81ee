/** The blog-post workflow of `state.rs`: a `Post` holds its content and a state
    object (draft, pending review, published) in an `Option` that the
    transitions `take` and refill. */
module BlogState {

  import opened Wrappers

  /** The three state objects behind `Box<dyn State>`, with the transitions
      each of them implements. */
  datatype State = Draft | PendingReview | Published
  {
    /** `State::request_review` */
    function RequestReview(): (r: State)
      ensures this == Draft ==> r == PendingReview
      ensures this != Draft ==> r == this
    {
      match this
      case Draft => PendingReview
      case PendingReview => this
      case Published => this
    }

    /** `State::approve` */
    function Approve(): (r: State)
      ensures this == PendingReview ==> r == Published
      ensures this != PendingReview ==> r == this
    {
      match this
      case Draft => this
      case PendingReview => Published
      case Published => this
    }
  }

  /** `State::content`: the trait's default shows nothing; `Published`
      overrides it to show the post's text. */
  function VisibleContent(s: State, text: string): (r: string)
    ensures s == Published ==> r == text
    ensures s != Published ==> r == ""
  {
    if s.Published? then text else ""
  }

  /** The public operations on a `Post`. */
  datatype Op = AddText(text: string) | RequestReviewOp | ApproveOp

  /** The state after `op`. */
  function Step(s: State, op: Op): State
  {
    match op
    case AddText(_) => s
    case RequestReviewOp => s.RequestReview()
    case ApproveOp => s.Approve()
  }

  /** The state after a sequence of operations. */
  function StateAfter(s: State, ops: seq<Op>): State
    decreases |ops|
  {
    if ops == [] then s else StateAfter(Step(s, ops[0]), ops[1..])
  }

  /** The text accumulated by a sequence of operations. */
  function TextAfter(text: string, ops: seq<Op>): string
    decreases |ops|
  {
    if ops == [] then text
    else TextAfter(if ops[0].AddText? then text + ops[0].text else text, ops[1..])
  }

  /** Position of a state in the workflow. */
  function Rank(s: State): nat
  {
    match s
    case Draft => 0
    case PendingReview => 1
    case Published => 2
  }

  /** Published is absorbing, and a draft cannot be approved directly. */
  lemma TransitionTable()
    ensures forall op :: Step(Published, op) == Published
    ensures Draft.Approve() == Draft && PendingReview.RequestReview() == PendingReview
  {
  }

  /** A step never moves backwards and never skips a state. */
  lemma StepRank(s: State, op: Op)
    ensures Rank(s) <= Rank(Step(s, op)) <= Rank(s) + 1
    ensures Rank(Step(s, op)) == Rank(s) + 1 <==>
      (s == Draft && op == RequestReviewOp) || (s == PendingReview && op == ApproveOp)
  {
  }

  /** Published is reachable only through PendingReview: any sequence of
      operations that takes a draft to Published has an `approve` applied
      while the post was pending review. */
  lemma {:induction false} PublishedOnlyThroughReview(s: State, ops: seq<Op>)
    requires s != Published && StateAfter(s, ops) == Published
    ensures exists k :: 0 <= k < |ops| && StateAfter(s, ops[..k]) == PendingReview && ops[k] == ApproveOp
    decreases |ops|
  {
    assert ops != [];
    var s1 := Step(s, ops[0]);
    if s1 == Published {
      assert StateAfter(s, ops[..0]) == s;
      assert s == PendingReview && ops[0] == ApproveOp;
    } else {
      PublishedOnlyThroughReview(s1, ops[1..]);
      var k :| 0 <= k < |ops[1..]| && StateAfter(s1, ops[1..][..k]) == PendingReview && ops[1..][k] == ApproveOp;
      assert ops[..k + 1][1..] == ops[1..][..k];
      assert StateAfter(s, ops[..k + 1]) == PendingReview;
    }
  }

  /** `blog::Post`. `state` is `None` only in the middle of a transition. */
  class Post {
    var state: Option<State>
    var content: string

    /** Between public calls the state is present, so `content`'s `unwrap`
        cannot panic. */
    ghost predicate Valid()
      reads this
    {
      state.Some?
    }

    /** `Post::new` */
    constructor ()
      ensures Valid() && state == Some(Draft) && content == ""
    {
      state := Some(Draft);
      content := "";
    }

    /** `Post::add_text`: append, whatever the state. */
    method AddText(text: string)
      modifies this
      ensures content == old(content) + text
      ensures state == old(state)
    {
      content := content + text;
    }

    /** `Post::content`: what the current state lets readers see. */
    function Content(): (r: string)
      reads this
      requires Valid()
      ensures state.value == Published ==> r == content
      ensures state.value != Published ==> r == ""
    {
      VisibleContent(state.value, content)
    }

    /** `Post::request_review`: take the state out, put its successor back. */
    method RequestReview()
      modifies this
      ensures state == MapOption(old(state), (s: State) => s.RequestReview())
      ensures content == old(content)
      ensures old(Valid()) ==> Valid()
    {
      var s := state;
      state := None;
      if s.Some? {
        state := Some(s.value.RequestReview());
      }
    }

    /** `Post::approve`: take the state out, put its successor back. */
    method Approve()
      modifies this
      ensures state == MapOption(old(state), (s: State) => s.Approve())
      ensures content == old(content)
      ensures old(Valid()) ==> Valid()
    {
      var s := state;
      state := None;
      if s.Some? {
        state := Some(s.value.Approve());
      }
    }

    /** Applies `op` to the post. */
    method Apply(op: Op)
      requires Valid()
      modifies this
      ensures Valid()
      ensures state.value == Step(old(state).value, op)
      ensures content == (if op.AddText? then old(content) + op.text else old(content))
    {
      match op
      case AddText(t) => AddText(t);
      case RequestReviewOp => RequestReview();
      case ApproveOp => Approve();
    }
  }

  /** Any sequence of public calls on a new post keeps the state present and
      leaves the post in `StateAfter(Draft, ops)` holding `TextAfter("", ops)`. */
  method RunOps(ops: seq<Op>) returns (post: Post)
    ensures post.Valid()
    ensures post.state.value == StateAfter(Draft, ops)
    ensures post.content == TextAfter("", ops)
  {
    post := new Post();
    for i := 0 to |ops|
      invariant post.Valid()
      invariant post.state.value == StateAfter(Draft, ops[..i])
      invariant post.content == TextAfter("", ops[..i])
    {
      StepAfter(Draft, "", ops[..i], ops[i]);
      post.Apply(ops[i]);
      assert ops[..i + 1] == ops[..i] + [ops[i]];
    }
    assert ops[..|ops|] == ops;
  }

  /** Applying one more operation at the end of a sequence. */
  lemma {:induction false} StepAfter(s: State, text: string, ops: seq<Op>, op: Op)
    ensures StateAfter(s, ops + [op]) == Step(StateAfter(s, ops), op)
    ensures TextAfter(text, ops + [op]) ==
      if op.AddText? then TextAfter(text, ops) + op.text else TextAfter(text, ops)
    decreases |ops|
  {
    if ops == [] {
      assert ops + [op] == [op];
    } else {
      assert (ops + [op])[1..] == ops[1..] + [op];
      StepAfter(Step(s, ops[0]), if ops[0].AddText? then text + ops[0].text else text, ops[1..], op);
    }
  }

  /** `add_text(t)`, `request_review`, `approve` publishes exactly `t`; before
      the approval the post shows nothing. */
  method PublishWorkflow(t: string) returns (beforeReview: string, beforeApproval: string, published: string)
    ensures beforeReview == "" && beforeApproval == ""
    ensures published == t
  {
    var post := new Post();
    post.AddText(t);
    beforeReview := post.Content();
    post.RequestReview();
    beforeApproval := post.Content();
    post.Approve();
    published := post.Content();
  }

  /** `main` as written: it adds "I ate a salad for lunch today." but its last
      `assert_eq!` expects the text without the final '.', so it panics. */
  method MainAsWritten() returns (published: string, expected: string)
    ensures published == "I ate a salad for lunch today."
    ensures expected == "I ate a salad for lunch today"
    ensures published != expected
  {
    var _, _, p := PublishWorkflow("I ate a salad for lunch today.");
    published := p;
    expected := "I ate a salad for lunch today";
    assert |published| != |expected|;
  }
}
