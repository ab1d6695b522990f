/**
 The sticky message of the help channel: the `StickyState` pair of optional ids, the
 three ways it changes (the hand-off on a new message, the quiet-channel check of the
 background worker, and the recording of a successful post), and what holds over any
 interleaving of them.
 */
module Sticky {
  import opened Wrappers

  /** Discord snowflakes, passed in as plain numbers. */
  type MessageId = nat
  type UserId = nat

  /** Seconds the newest message must have sat unanswered before the worker reposts. */
  const QuietSeconds: int := 120

  /** The guarded fields of `StickyState`: the sticky message the bot last posted and
      still tracks, and the author of the last message seen in the help channel. */
  datatype State = State(lastStickyId: Option<MessageId>, lastAuthorId: Option<UserId>)

  /** Both fields empty, as at start-up. */
  const Initial: State := State(None, None)

  /** What the worker's one-message fetch of the help channel gave. */
  datatype Fetched =
    | FetchFailed
    | NoMessages
    | Newest(id: MessageId, timestamp: int)

  /** The hand-off decision: the sticky id to delete, if any, and the new state. */
  datatype HandOffStep = HandOffStep(toDelete: Option<MessageId>, next: State)

  /** The worker's decision: the sticky id to delete, whether to post a fresh sticky,
      and the new state. */
  datatype QuietStep = QuietStep(toDelete: Option<MessageId>, post: bool, next: State)

  /** A message from `author` in the help channel. When a previous author exists and
      differs, the tracked sticky is taken for deletion; the author is recorded. */
  function OnMessage(s: State, author: UserId): (r: HandOffStep)
    ensures r.next.lastAuthorId == Some(author)
    ensures r.toDelete.Some? <==>
              s.lastAuthorId.Some? && s.lastAuthorId.value != author && s.lastStickyId.Some?
    ensures r.toDelete.Some? ==> r.toDelete == s.lastStickyId && r.next.lastStickyId == None
    ensures r.toDelete.None? ==> r.next.lastStickyId == None || r.next.lastStickyId == s.lastStickyId
    ensures s.lastAuthorId.None? || s.lastAuthorId == Some(author) ==>
              r.toDelete == None && r.next.lastStickyId == s.lastStickyId
  {
    if s.lastAuthorId.Some? && s.lastAuthorId.value != author then
      HandOffStep(s.lastStickyId, State(None, Some(author)))
    else
      HandOffStep(None, State(s.lastStickyId, Some(author)))
  }

  /** One tick of the background worker, at time `now` (Unix seconds). When the newest
      message is at least `QuietSeconds` old and is not the tracked sticky, the tracked
      id is taken for deletion and a post is requested; otherwise nothing changes. */
  function OnTick(s: State, now: int, fetched: Fetched): (r: QuietStep)
    ensures r.next.lastAuthorId == s.lastAuthorId
    ensures r.post <==>
              fetched.Newest? && now - fetched.timestamp >= QuietSeconds
              && s.lastStickyId != Some(fetched.id)
    ensures r.post ==> r.toDelete == s.lastStickyId && r.next.lastStickyId == None
    ensures !r.post ==> r.toDelete == None && r.next == s
  {
    match fetched
    case Newest(id, timestamp) =>
      if now - timestamp >= QuietSeconds && s.lastStickyId != Some(id) then
        QuietStep(s.lastStickyId, true, State(None, s.lastAuthorId))
      else
        QuietStep(None, false, s)
    case _ => QuietStep(None, false, s)
  }

  /** The end of a requested post: its id is tracked when it went through, and the
      state is left as it was when it failed. */
  function OnPosted(s: State, posted: Option<MessageId>): (r: State)
    ensures r.lastAuthorId == s.lastAuthorId
    ensures posted.Some? ==> r.lastStickyId == posted
    ensures posted.None? ==> r == s
  {
    if posted.Some? then State(posted, s.lastAuthorId) else s
  }

  /** The tick boundary is inclusive: a newest message exactly `QuietSeconds` old
      that is not the sticky triggers a repost, one a second younger does not. */
  lemma QuietBoundary(s: State, id: MessageId, t: int)
    requires s.lastStickyId != Some(id)
    ensures OnTick(s, t + QuietSeconds, Newest(id, t)).post
    ensures !OnTick(s, t + QuietSeconds - 1, Newest(id, t)).post
  {
  }

  /** After a sticky was posted, a tick whose newest message is that sticky requests
      nothing and changes nothing, however long the channel has been quiet. */
  lemma OwnStickyIsLeftAlone(s: State, id: MessageId, t: int, now: int)
    ensures var r := OnTick(OnPosted(s, Some(id)), now, Newest(id, t));
            !r.post && r.toDelete == None && r.next == OnPosted(s, Some(id))
  {
  }

  /** A requested post that fails leaves no sticky tracked. */
  lemma FailedPostTracksNothing(s: State, now: int, fetched: Fetched)
    requires OnTick(s, now, fetched).post
    ensures OnPosted(OnTick(s, now, fetched).next, None).lastStickyId == None
  {
  }

  // ---------------------------------------------------------------------------
  // Interleavings

  /** Everything that touches the state, in the order it happens: the locked blocks of
      the handler and of the worker, and the worker's recording after its post. */
  datatype Event =
    | MessageFrom(author: UserId)
    | Tick(now: int, fetched: Fetched)
    | Posted(posted: Option<MessageId>)

  /** The state after an event and the sticky id it takes for deletion. */
  function Step(s: State, e: Event): (r: (State, Option<MessageId>))
    ensures r.1.Some? ==> r.1 == s.lastStickyId && r.0.lastStickyId == None
    ensures r.0.lastAuthorId != s.lastAuthorId ==> e.MessageFrom? && r.0.lastAuthorId == Some(e.author)
    ensures r.0.lastStickyId != s.lastStickyId ==> r.0.lastStickyId == None || e == Posted(r.0.lastStickyId)
  {
    match e
    case MessageFrom(author) => var r := OnMessage(s, author); (r.next, r.toDelete)
    case Tick(now, fetched) => var r := OnTick(s, now, fetched); (r.next, r.toDelete)
    case Posted(posted) => (OnPosted(s, posted), None)
  }

  /** The final state of a run of events, and the sticky ids taken for deletion along the way. */
  function Run(s: State, events: seq<Event>): (r: (State, seq<MessageId>))
    ensures |r.1| <= |events|
    ensures (forall i :: 0 <= i < |events| ==> !events[i].MessageFrom?) ==>
              r.0.lastAuthorId == s.lastAuthorId
  {
    if events == [] then (s, [])
    else
      var (mid, deleted) := Run(s, events[..|events| - 1]);
      var (next, d) := Step(mid, events[|events| - 1]);
      (next, deleted + OptionToSeq(d))
  }

  function OptionToSeq(o: Option<MessageId>): seq<MessageId> {
    if o.Some? then [o.value] else []
  }

  /** The ids the worker's successful posts returned, in order. */
  function PostedIds(events: seq<Event>): seq<MessageId> {
    if events == [] then []
    else
      var last := events[|events| - 1];
      PostedIds(events[..|events| - 1])
        + PostedBy(last)
  }

  /** The ids an event posts: the new sticky's, for a post that went through. */
  function PostedBy(e: Event): seq<MessageId> {
    if e.Posted? then OptionToSeq(e.posted) else []
  }

  /** 1 when `o` holds `id`, else 0. */
  function Holds(o: Option<MessageId>, id: MessageId): nat {
    if o == Some(id) then 1 else 0
  }

  /** One event neither deletes nor keeps tracking a sticky beyond what was tracked
      before it plus what it posts. */
  lemma StepIsCovered(s: State, e: Event, id: MessageId)
    ensures Holds(Step(s, e).1, id) + Holds(Step(s, e).0.lastStickyId, id)
              <= Holds(s.lastStickyId, id) + multiset(PostedBy(e))[id]
  {
  }

  /** Over any interleaving, for every id, the times it was taken for deletion plus
      whether it is still tracked are bounded by whether it was tracked at the start
      plus the times a post returned it: every deletion targets a sticky the bot posted,
      and no sticky is taken twice, or taken and still tracked. */
  lemma {:induction false} DeletionsArePostedStickies(s: State, events: seq<Event>, id: MessageId)
    ensures multiset(Run(s, events).1)[id] + Holds(Run(s, events).0.lastStickyId, id)
              <= Holds(s.lastStickyId, id) + multiset(PostedIds(events))[id]
  {
    if events != [] {
      var init, last := events[..|events| - 1], events[|events| - 1];
      DeletionsArePostedStickies(s, init, id);
      var mid := Run(s, init);
      StepIsCovered(mid.0, last, id);
      var step := Step(mid.0, last);
      assert Run(s, events) == (step.0, mid.1 + OptionToSeq(step.1));
      assert multiset(mid.1 + OptionToSeq(step.1))[id]
          == multiset(mid.1)[id] + Holds(step.1, id);
      assert PostedIds(events) == PostedIds(init) + PostedBy(last);
      assert multiset(PostedIds(events))[id]
          == multiset(PostedIds(init))[id] + multiset(PostedBy(last))[id];
    }
  }

  /** From start-up, a sticky id taken for deletion was always returned by a post, and it
      is taken no more often than it was posted. */
  lemma DeletesOnlyPostedStickies(events: seq<Event>, id: MessageId)
    ensures var deleted := Run(Initial, events).1;
            multiset(deleted)[id] <= multiset(PostedIds(events))[id]
            && (id in deleted ==> id in PostedIds(events))
  {
    DeletionsArePostedStickies(Initial, events, id);
  }

  /** The tick at index `j` of `events` requests a post. */
  predicate RequestsPost(s: State, events: seq<Event>, j: nat)
    requires j < |events|
  {
    events[j].Tick? && OnTick(Run(s, events[..j]).0, events[j].now, events[j].fetched).post
  }

  /** The order of one worker: it records a post only after the tick that requested it,
      and only hand-offs from the handler can come in between. */
  predicate WorkerOrder(s: State, events: seq<Event>) {
    forall i :: 0 <= i < |events| && events[i].Posted? ==>
      exists j :: 0 <= j < i && RequestsPost(s, events, j)
        && forall m :: j < m < i ==> events[m].MessageFrom?
  }

  /** Every `Posted` event meets an untracked sticky. */
  predicate WorkerProtocol(s: State, events: seq<Event>) {
    forall i :: 0 <= i < |events| && events[i].Posted? ==> Run(s, events[..i]).0.lastStickyId == None
  }

  /** After a tick that requests a post, and any hand-offs after it, no sticky is
      tracked: the tick clears the id and a hand-off never starts tracking one. */
  lemma {:induction false} UntrackedAfter(s: State, events: seq<Event>, j: nat, i: nat)
    requires j < i <= |events| && RequestsPost(s, events, j)
    requires forall m :: j < m < i ==> events[m].MessageFrom?
    ensures Run(s, events[..i]).0.lastStickyId == None
  {
    assert events[..i][..i - 1] == events[..i - 1];
    if i > j + 1 {
      UntrackedAfter(s, events, j, i - 1);
    }
  }

  /** One worker's order gives the protocol. */
  lemma OrderGivesProtocol(s: State, events: seq<Event>)
    requires WorkerOrder(s, events)
    ensures WorkerProtocol(s, events)
  {
    forall i | 0 <= i < |events| && events[i].Posted?
      ensures Run(s, events[..i]).0.lastStickyId == None
    {
      var j :| 0 <= j < i && RequestsPost(s, events, j)
        && forall m :: j < m < i ==> events[m].MessageFrom?;
      UntrackedAfter(s, events, j, i);
    }
  }

  /** Under the worker's order, one event accounts exactly for the ids it touches. */
  lemma StepIsExact(s: State, e: Event, id: MessageId)
    requires e.Posted? ==> s.lastStickyId == None
    ensures Holds(Step(s, e).1, id) + Holds(Step(s, e).0.lastStickyId, id)
              == Holds(s.lastStickyId, id) + multiset(PostedBy(e))[id]
  {
  }

  /** Under the protocol, the bound of `DeletionsArePostedStickies` is an equality. */
  lemma {:induction false} ExactUnderProtocol(s: State, events: seq<Event>, id: MessageId)
    requires WorkerProtocol(s, events)
    ensures multiset(Run(s, events).1)[id] + Holds(Run(s, events).0.lastStickyId, id)
              == Holds(s.lastStickyId, id) + multiset(PostedIds(events))[id]
  {
    if events != [] {
      var init, last := events[..|events| - 1], events[|events| - 1];
      assert WorkerProtocol(s, init) by {
        forall i | 0 <= i < |init| && init[i].Posted?
          ensures Run(s, init[..i]).0.lastStickyId == None
        {
          assert init[..i] == events[..i];
        }
      }
      ExactUnderProtocol(s, init, id);
      var mid := Run(s, init);
      assert events[..|events| - 1] == init;
      StepIsExact(mid.0, last, id);
      var step := Step(mid.0, last);
      assert Run(s, events) == (step.0, mid.1 + OptionToSeq(step.1));
      assert multiset(mid.1 + OptionToSeq(step.1))[id]
          == multiset(mid.1)[id] + Holds(step.1, id);
      assert PostedIds(events) == PostedIds(init) + PostedBy(last);
      assert multiset(PostedIds(events))[id]
          == multiset(PostedIds(init))[id] + multiset(PostedBy(last))[id];
    }
  }

  /** With one worker, every sticky that was tracked at the start or posted is taken
      for deletion or is still tracked: none is ever left behind untracked. */
  lemma NoStickyOrphaned(s: State, events: seq<Event>, id: MessageId)
    requires WorkerOrder(s, events)
    ensures multiset(Run(s, events).1)[id] + Holds(Run(s, events).0.lastStickyId, id)
              == Holds(s.lastStickyId, id) + multiset(PostedIds(events))[id]
  {
    OrderGivesProtocol(s, events);
    ExactUnderProtocol(s, events, id);
  }

  /** Two workers break this: both tick on the same quiet channel, both post, and the
      second recording overwrites the first, so sticky 5 is never taken for deletion
      and is no longer tracked. */
  lemma TwoWorkersOrphanSticky()
    ensures var events := [Tick(200, Newest(1, 0)), Tick(200, Newest(1, 0)), Posted(Some(5)), Posted(Some(6))];
            var r := Run(Initial, events);
            5 in PostedIds(events) && 5 !in r.1 && r.0.lastStickyId == Some(6)
  {
    var events := [Tick(200, Newest(1, 0)), Tick(200, Newest(1, 0)), Posted(Some(5)), Posted(Some(6))];
    assert events[..1][..0] == [] && events[..2][..1] == events[..1];
    assert events[..3][..2] == events[..2] && events[..|events| - 1] == events[..3];
    var cleared := State(None, None);
    assert Run(Initial, events[..1]) == (cleared, []);
    assert Run(Initial, events[..2]) == (cleared, []);
    assert Run(Initial, events[..3]) == (State(Some(5), None), []);
    assert Run(Initial, events) == (State(Some(6), None), []);
    assert PostedIds(events[..3]) == PostedIds(events[..2]) + [5];
    assert PostedIds(events) == PostedIds(events[..3]) + [6];
  }

  /** The shared `StickyState` object; each method is one critical section. */
  class StickyState {
    var lastStickyId: Option<MessageId>
    var lastAuthorId: Option<UserId>

    function Model(): State
      reads this
    {
      State(lastStickyId, lastAuthorId)
    }

    constructor ()
      ensures Model() == Initial
    {
      lastStickyId, lastAuthorId := None, None;
    }

    /** The handler's locked block: take the sticky id on a change of author, then
        record the author. */
    method HandOff(author: UserId) returns (toDelete: Option<MessageId>)
      modifies this
      ensures var r := OnMessage(old(Model()), author);
              toDelete == r.toDelete && Model() == r.next
    {
      toDelete := None;
      if lastAuthorId.Some? {
        var previous := lastAuthorId.value;
        if previous != author {
          toDelete := lastStickyId;
          lastStickyId := None;
        }
      }
      lastAuthorId := Some(author);
    }

    /** The worker's first locked block, on a successful fetch. */
    method CheckQuiet(now: int, fetched: Fetched) returns (toDelete: Option<MessageId>, post: bool)
      modifies this
      ensures var r := OnTick(old(Model()), now, fetched);
              toDelete == r.toDelete && post == r.post && Model() == r.next
    {
      toDelete, post := None, false;
      if fetched.Newest? {
        var durationSinceLastMsg := now - fetched.timestamp;
        if durationSinceLastMsg >= QuietSeconds {
          if lastStickyId.None? || lastStickyId.value != fetched.id {
            toDelete := lastStickyId;
            lastStickyId := None;
            post := true;
          }
        }
      }
    }

    /** The worker's second locked block, once the post went through. */
    method RecordPost(posted: Option<MessageId>)
      modifies this
      ensures Model() == OnPosted(old(Model()), posted)
    {
      if posted.Some? {
        lastStickyId := posted;
      }
    }
  }
}
