/**
 * The moderated post of `2_idioms/2_1_type_safety`: a post's state is a type
 * parameter, so each transition exists only on the state it leaves. Here the
 * state is a tag, and a transition requires the tag it is defined on.
 */
module PostModeration {
  import opened Wrappers
  import opened Integers

  /** `postdata::Id`. */
  datatype PostId = PostId(value: U64)

  /** `userdata::Id`. */
  datatype UserId = UserId(value: U64)

  /** `postdata::Title`. */
  datatype Title = Title(value: string)

  /** `postdata::Body`. */
  datatype Body = Body(value: string)

  /** `PostData`: what a post carries, whatever its state. */
  datatype PostData = PostData(id: PostId, userId: UserId, title: Title, body: Body)

  /** `PostData::default`. */
  function DefaultData(): (d: PostData)
    ensures d.id.value == 0 && d.userId.value == 0
    ensures d.title.value == "New" && d.body.value == "Some body once told me"
  {
    PostData(PostId(0), UserId(0), Title("New"), Body("Some body once told me"))
  }

  /** The four `PostState` types. */
  datatype State = New | Unmoderated | Published | Deleted

  /** `Post<S>`. */
  datatype Post = Post(state: State, data: PostData)

  /** `Post::new`: a `Post<New>` with the default data. */
  function NewPost(): (p: Post)
    ensures p.state == New && p.data == DefaultData()
  {
    Post(New, DefaultData())
  }

  /** `publish`, defined on `Post<New>` only. */
  function Publish(p: Post): (q: Post)
    requires p.state == New
    ensures q.state == Unmoderated && q.data == p.data
  {
    Post(Unmoderated, p.data)
  }

  /** `allow`, defined on `Post<Unmoderated>` only. */
  function Allow(p: Post): (q: Post)
    requires p.state == Unmoderated
    ensures q.state == Published && q.data == p.data
  {
    Post(Published, p.data)
  }

  /** `deny`, defined on `Post<Unmoderated>` only. */
  function Deny(p: Post): (q: Post)
    requires p.state == Unmoderated
    ensures q.state == Deleted && q.data == p.data
  {
    Post(Deleted, p.data)
  }

  /** `delete`, defined on `Post<Published>` only. */
  function Delete(p: Post): (q: Post)
    requires p.state == Published
    ensures q.state == Deleted && q.data == p.data
  {
    Post(Deleted, p.data)
  }

  /** The four transitions, by name. */
  datatype Action = PublishAction | AllowAction | DenyAction | DeleteAction

  /**
   * One transition attempted on a post: `None` where the source has no such
   * method for the post's state (a call that would not compile).
   */
  function Step(p: Post, a: Action): Option<Post> {
    match a
    case PublishAction => if p.state == New then Some(Publish(p)) else None
    case AllowAction => if p.state == Unmoderated then Some(Allow(p)) else None
    case DenyAction => if p.state == Unmoderated then Some(Deny(p)) else None
    case DeleteAction => if p.state == Published then Some(Delete(p)) else None
  }

  /** A sequence of transitions, stopping at the first that does not exist. */
  function Run(p: Post, actions: seq<Action>): Option<Post>
    decreases |actions|
  {
    if actions == [] then Some(p)
    else
      match Step(p, actions[0])
      case None => None
      case Some(q) => Run(q, actions[1..])
  }

  /** How far along the lifecycle a state is. */
  function Rank(s: State): nat {
    match s
    case New => 0
    case Unmoderated => 1
    case Published => 2
    case Deleted => 3
  }

  /**
   * The transition table: exactly New-publish, Unmoderated-allow,
   * Unmoderated-deny and Published-delete exist, each keeps the data, and
   * each moves the post forward.
   */
  lemma StepTable(p: Post, a: Action)
    ensures Step(p, a).Some? <==>
      || (p.state == New && a == PublishAction)
      || (p.state == Unmoderated && (a == AllowAction || a == DenyAction))
      || (p.state == Published && a == DeleteAction)
    ensures Step(p, a).Some? ==> Step(p, a).value.data == p.data
    ensures Step(p, a).Some? ==> Rank(p.state) < Rank(Step(p, a).value.state)
  {
  }

  /** Nothing leaves `Deleted`. */
  lemma DeletedIsFinal(p: Post, a: Action)
    requires p.state == Deleted
    ensures Step(p, a) == None
  {
  }

  /** Every run of transitions carries the data unchanged and moves the post one rank per step. */
  lemma {:induction false} RunKeepsData(p: Post, actions: seq<Action>)
    requires Run(p, actions).Some?
    ensures Run(p, actions).value.data == p.data
    ensures Rank(p.state) + |actions| <= Rank(Run(p, actions).value.state)
    decreases |actions|
  {
    if actions != [] {
      StepTable(p, actions[0]);
      RunKeepsData(Step(p, actions[0]).value, actions[1..]);
    }
  }

  /** No run is longer than three transitions, so no state is ever visited twice. */
  lemma RunsAreShort(p: Post, actions: seq<Action>)
    requires Run(p, actions).Some?
    ensures |actions| <= 3
    ensures |actions| > 0 ==> Run(p, actions).value.state != p.state
  {
    RunKeepsData(p, actions);
  }

  /** A run that gets through its first transition continues from where that leads. */
  lemma RunUnfold(p: Post, actions: seq<Action>)
    requires actions != [] && Run(p, actions).Some?
    ensures Step(p, actions[0]).Some? && Run(p, actions) == Run(Step(p, actions[0]).value, actions[1..])
  {
  }

  /** The two ways a new post can end up deleted. */
  lemma DeletedRuns(actions: seq<Action>)
    requires Run(NewPost(), actions).Some? && Run(NewPost(), actions).value.state == Deleted
    ensures actions == [PublishAction, DenyAction] || actions == [PublishAction, AllowAction, DeleteAction]
  {
    RunsAreShort(NewPost(), actions);
    RunUnfold(NewPost(), actions);
    var p1 := Step(NewPost(), actions[0]).value;
    assert actions[0] == PublishAction && p1.state == Unmoderated;
    RunUnfold(p1, actions[1..]);
    var p2 := Step(p1, actions[1]).value;
    assert actions[1..][1..] == actions[2..];
    if actions[1] == DenyAction {
      assert p2.state == Deleted;
      if |actions| > 2 {
        RunUnfold(p2, actions[2..]);
        DeletedIsFinal(p2, actions[2]);
        assert false;
      }
      assert actions == [actions[0], actions[1]];
    } else {
      assert actions[1] == AllowAction && p2.state == Published;
      RunUnfold(p2, actions[2..]);
      assert actions[2] == DeleteAction;
      assert actions == [actions[0], actions[1], actions[2]];
    }
  }

  /** A post goes through its whole lifecycle with the default data intact. */
  lemma LifecycleExample()
    ensures Run(NewPost(), [PublishAction, AllowAction, DeleteAction]) == Some(Post(Deleted, DefaultData()))
    ensures Run(NewPost(), [PublishAction, DenyAction]) == Some(Post(Deleted, DefaultData()))
    ensures Run(NewPost(), [AllowAction]) == None
  {
  }
}
