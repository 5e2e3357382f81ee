/** The blog-post workflow of `state2.rs`, with each state a type of its own:
    only a `DraftPost` can take text, only a `PendingReviewPost` can be
    approved, and only a published `Post` has `content`. */
module BlogTypes {

  /** `blog::DraftPost`: its text grows in place. */
  class DraftPost {
    var content: string

    constructor (content: string)
      ensures this.content == content
    {
      this.content := content;
    }

    /** `DraftPost::add_text` */
    method AddText(text: string)
      modifies this
      ensures content == old(content) + text
    {
      content := content + text;
    }

    /** `DraftPost::request_review`: consumes the draft, carrying its text over. */
    function RequestReview(): (p: PendingReviewPost)
      reads this
      ensures p.content == content
    {
      PendingReviewPost(content)
    }
  }

  /** `blog::PendingReviewPost` */
  datatype PendingReviewPost = PendingReviewPost(content: string)
  {
    /** `PendingReviewPost::approve`: consumes it, carrying the text over. */
    function Approve(): (p: Post)
      ensures p.Content() == content
    {
      Post(content)
    }
  }

  /** `blog::Post`, the published post. */
  datatype Post = Post(content: string)
  {
    /** `Post::content` */
    function Content(): string
    {
      content
    }
  }

  /** `Post::new`: a new post starts as an empty draft. */
  method NewPost() returns (draft: DraftPost)
    ensures fresh(draft) && draft.content == ""
  {
    draft := new DraftPost("");
  }

  /** `new`, `add_text(t)`, `request_review`, `approve` publishes exactly `t`,
      as `main` asserts for its sentence. */
  method Workflow(t: string) returns (published: string)
    ensures published == t
  {
    var draft := NewPost();
    draft.AddText(t);
    var pending := draft.RequestReview();
    var post := pending.Approve();
    published := post.Content();
  }

  /** Text added in several calls is published in the order it was added. */
  method WorkflowInParts(parts: seq<string>) returns (published: string)
    ensures published == Concat(parts)
  {
    var draft := NewPost();
    for i := 0 to |parts|
      invariant draft.content == Concat(parts[..i])
    {
      ConcatSnoc(parts[..i], parts[i]);
      draft.AddText(parts[i]);
      assert parts[..i + 1] == parts[..i] + [parts[i]];
    }
    assert parts[..|parts|] == parts;
    published := draft.RequestReview().Approve().Content();
  }

  /** The strings of `parts`, one after the other. */
  function Concat(parts: seq<string>): string
  {
    if parts == [] then "" else parts[0] + Concat(parts[1..])
  }

  lemma {:induction false} ConcatSnoc(parts: seq<string>, last: string)
    ensures Concat(parts + [last]) == Concat(parts) + last
  {
    if parts == [] {
      assert parts + [last] == [last];
    } else {
      assert (parts + [last])[1..] == parts[1..] + [last];
      ConcatSnoc(parts[1..], last);
    }
  }
}
