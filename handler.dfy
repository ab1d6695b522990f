/**
 The message handler: what the bot does with one incoming message, as a decision over
 the message, the current blocklist and the sticky state, and as the method that
 applies that decision to the shared objects.
 */
module Handler {
  import opened Wrappers
  import opened Blocklist
  import opened Sticky

  type ChannelId = nat

  /** The channel whose sticky message the bot maintains. */
  const HelpChannelId: ChannelId := 1248143441242619955

  /** The parts of an incoming message the handler looks at. */
  datatype Message = Message(isBot: bool, content: string, channelId: ChannelId, authorId: UserId)

  /** What the handler asks the platform to do. */
  datatype Effect =
    | DeleteFlagged          // delete the message itself and, once that succeeds, warn its author
    | DeleteSticky(id: MessageId)

  /** The effects for one message and the sticky state it leaves. */
  datatype Reaction = Reaction(effects: seq<Effect>, next: State)

  /** The sticky event a message amounts to: a hand-off check for every message that
      reaches the end of the handler in the help channel, nothing otherwise. */
  function StickyEvent(msg: Message, links: set<string>): (r: Option<Event>)
    ensures r.Some? <==> !msg.isBot && !IsPhishing(msg.content, links) && msg.channelId == HelpChannelId
    ensures r.Some? ==> r.value == MessageFrom(msg.authorId)
  {
    if !msg.isBot && !IsPhishing(msg.content, links) && msg.channelId == HelpChannelId
    then Some(MessageFrom(msg.authorId))
    else None
  }

  /** The handler's decision. Bot messages are ignored; a flagged message is deleted and
      the handler stops there; any other message in the help channel runs the hand-off. */
  function Decide(msg: Message, links: set<string>, s: State): (r: Reaction)
    ensures msg.isBot ==> r == Reaction([], s)
    ensures !msg.isBot && IsPhishing(msg.content, links) ==> r == Reaction([DeleteFlagged], s)
    ensures DeleteFlagged in r.effects <==> !msg.isBot && IsPhishing(msg.content, links)
    ensures msg.channelId != HelpChannelId ==>
              r.next == s && forall e :: e in r.effects ==> e == DeleteFlagged
    ensures r.next.lastStickyId != s.lastStickyId ==>
              r.next.lastStickyId == None && r.effects == [DeleteSticky(s.lastStickyId.value)]
    ensures forall x: MessageId :: DeleteSticky(x) in r.effects ==>
              s.lastStickyId == Some(x) && r.next.lastStickyId == None
    ensures !msg.isBot && !IsPhishing(msg.content, links) && msg.channelId == HelpChannelId ==>
              r.next.lastAuthorId == Some(msg.authorId)
    ensures (exists x: MessageId :: DeleteSticky(x) in r.effects) <==>
              && !msg.isBot && !IsPhishing(msg.content, links) && msg.channelId == HelpChannelId
              && s.lastAuthorId.Some? && s.lastAuthorId.value != msg.authorId && s.lastStickyId.Some?
  {
    if msg.isBot then Reaction([], s)
    else if IsPhishing(msg.content, links) then Reaction([DeleteFlagged], s)
    else if msg.channelId == HelpChannelId then
      var step := OnMessage(s, msg.authorId);
      Reaction(if step.toDelete.Some? then [DeleteSticky(step.toDelete.value)] else [], step.next)
    else Reaction([], s)
  }

  /** The sticky ids a list of effects deletes. */
  function StickyDeletions(effects: seq<Effect>): seq<MessageId> {
    if effects == [] then []
    else
      (if effects[0].DeleteSticky? then [effects[0].id] else []) + StickyDeletions(effects[1..])
  }

  /** The handler touches the sticky state only through the hand-off step of its sticky
      event, so what the interleaving lemmas of `Sticky` prove covers it: its new state
      and the stickies it deletes are exactly those of that event. */
  lemma DecideFollowsStickyEvent(msg: Message, links: set<string>, s: State)
    ensures var r := Decide(msg, links, s);
            match StickyEvent(msg, links)
            case None => r.next == s && StickyDeletions(r.effects) == []
            case Some(e) => r.next == Step(s, e).0 && StickyDeletions(r.effects) == OptionToSeq(Step(s, e).1)
  {
    var r := Decide(msg, links, s);
    if r.effects != [] {
      assert r.effects[1..] == [];
    }
  }

  /** Handles one message against the shared blocklist and sticky state. */
  method HandleMessage(msg: Message, protect: PhishingProtect, sticky: StickyState)
    returns (effects: seq<Effect>)
    modifies sticky
    ensures var r := Decide(msg, protect.links, old(sticky.Model()));
            effects == r.effects && sticky.Model() == r.next
  {
    effects := [];
    if msg.isBot {
      return;
    }
    var isPhishing := IsPhishing(msg.content, protect.links);
    if isPhishing {
      effects := [DeleteFlagged];
      return;
    }
    if msg.channelId == HelpChannelId {
      var shouldDeleteId := sticky.HandOff(msg.authorId);
      if shouldDeleteId.Some? {
        effects := [DeleteSticky(shouldDeleteId.value)];
      }
    }
  }
}
