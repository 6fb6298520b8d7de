/**
 * The messages cog (cogs/messages.py) as an object over the chat state. Each
 * command is a method that changes the state step by step in the order the
 * cog awaits its transport calls, and each is proved to end in the state and
 * outcome that the matching function of module Commands describes.
 */
module Messages {
  import opened Wrappers
  import opened Errors
  import Chat
  import opened Fence
  import opened Confirmation
  import opened Commands

  class MessagesCog {
    const bot: Chat.UserId
    var messages: map<Chat.MessageId, Chat.Msg>
    var nextId: nat
    var trace: seq<Chat.Event>

    function Snapshot(): Chat.World
      reads this
    {
      Chat.World(bot, messages, nextId, trace)
    }

    ghost predicate Valid()
      reads this
    {
      Chat.Valid(Snapshot())
    }

    constructor (bot: Chat.UserId, messages: map<Chat.MessageId, Chat.Msg>, nextId: nat)
      requires Chat.Valid(Chat.World(bot, messages, nextId, []))
      ensures Valid() && Snapshot() == Chat.World(bot, messages, nextId, [])
    {
      this.bot := bot;
      this.messages := messages;
      this.nextId := nextId;
      this.trace := [];
    }

    // ----- the transport calls -----

    method PostMessage(channel: Chat.ChannelId, content: string) returns (id: Chat.MessageId)
      requires Valid()
      modifies this
      ensures Valid() && id == old(nextId) && id !in old(messages)
      ensures Snapshot() == Chat.Post(old(Snapshot()), channel, content)
    {
      id := nextId;
      messages := messages[id := Chat.Msg(channel, bot, content)];
      nextId := nextId + 1;
      trace := trace + [Chat.Posted(id, channel, content)];
    }

    method PostPrompt(channel: Chat.ChannelId, shown: Chat.Msg) returns (id: Chat.MessageId)
      requires Valid()
      modifies this
      ensures Valid() && id == old(nextId) && id !in old(messages)
      ensures Snapshot() == Chat.Prompt(old(Snapshot()), channel, shown)
    {
      id := nextId;
      messages := messages[id := Chat.Msg(channel, bot, "")];
      nextId := nextId + 1;
      trace := trace + [Chat.Prompted(id, channel, shown.channel, shown.content)];
    }

    /** The awaited answer lands on the platform and gets the next id. */
    method ReceiveAnswer(r: Chat.Reply) returns (id: Chat.MessageId)
      requires Valid()
      modifies this
      ensures Valid() && id == old(nextId) && id !in old(messages)
      ensures Snapshot() == Chat.Arrive(old(Snapshot()), r)
    {
      id := nextId;
      messages := messages[id := Chat.Msg(r.channel, r.author, r.content)];
      nextId := nextId + 1;
    }

    method DeleteMessage(id: Chat.MessageId)
      requires Valid()
      modifies this
      ensures Valid() && id !in messages
      ensures Snapshot() == Chat.Delete(old(Snapshot()), id)
    {
      messages := messages - {id};
      trace := trace + [Chat.Deleted(id)];
    }

    method EditMessage(id: Chat.MessageId, content: string)
      requires Valid() && id in messages
      modifies this
      ensures Valid()
      ensures Snapshot() == Chat.Edit(old(Snapshot()), id, content)
    {
      messages := messages[id := messages[id].(content := content)];
      trace := trace + [Chat.Edited(id, content)];
    }

    /** `helpers.send_message_info_embed`: only its record is modelled. */
    method ReportFeedback(f: Chat.Feedback)
      requires Valid()
      modifies this
      ensures Valid()
      ensures Snapshot() == Chat.Report(old(Snapshot()), f)
    {
      trace := trace + [Chat.Reported(f)];
    }

    // ----- the cog -----

    /** `cog_command_error`: answer in the invocation channel, or re-raise. */
    method OnCommandError(inv: Chat.Invocation, e: Error) returns (reraise: bool)
      requires Valid()
      modifies this
      ensures Valid()
      ensures (Snapshot(), reraise) == HandleSpec(old(Snapshot()), inv, e)
      ensures reraise <==> e.kind in {NoPrivateMessage, Forbidden, Other}
    {
      MessagesReactionSpec(e);
      var reaction := MessagesReaction(e);
      if reaction.reply.Some? {
        var _ := PostMessage(inv.channel, reaction.reply.value);
      }
      reraise := reaction.reraise;
    }

    /** `send [channel_id] <content>` */
    method Send(inv: Chat.Invocation, invocationRefused: bool,
                channel: Result<Chat.Channel>, content: Result<string>, sendRefused: bool)
      returns (outcome: Outcome)
      requires Valid()
      modifies this
      ensures Valid()
      ensures Snapshot() == SendSpec(old(Snapshot()), inv, invocationRefused, channel, content, sendRefused).world
      ensures outcome == SendSpec(old(Snapshot()), inv, invocationRefused, channel, content, sendRefused).outcome
      ensures channel.Ok? && channel.value.guild != inv.guild ==>
                outcome.Raised? && outcome.error.kind == DifferentServer &&
                Commands.OnlyInvocationGone(old(Snapshot()), Snapshot(), inv)
    {
      if channel.Ok? && channel.value.guild != inv.guild {
        SendAcrossServers(Snapshot(), inv, invocationRefused, channel.value, content, sendRefused);
      }
      if !invocationRefused {
        DeleteMessage(inv.message);
      }
      if channel.Err? {
        return Raised(channel.error);
      }
      if channel.value.guild != inv.guild {
        return Raised(BareServerMismatch);
      }
      if content.Err? {
        return Raised(content.error);
      }
      var text := StripFence(content.value);
      if sendRefused {
        return Raised(Refused);
      }
      var id := PostMessage(channel.value.id, text);
      ReportFeedback(Chat.Feedback(Chat.SendAction, inv.author, text, id));
      outcome := Completed;
    }

    /** `edit [channel_id] <message_id> <content>`; its command message is deleted without a guard. */
    method Edit(inv: Chat.Invocation, invocationRefused: bool,
                channel: Result<Chat.Channel>, target: Result<Chat.MessageId>, content: Result<string>,
                editRefused: bool)
      returns (outcome: Outcome)
      requires Valid()
      requires Resolved(Chat.Delete(Snapshot(), inv.message), channel, target)
      modifies this
      ensures Valid()
      ensures Snapshot() == EditSpec(old(Snapshot()), inv, invocationRefused, channel, target, content, editRefused).world
      ensures outcome == EditSpec(old(Snapshot()), inv, invocationRefused, channel, target, content, editRefused).outcome
      ensures channel.Ok? && channel.value.guild != inv.guild ==>
                outcome == (if invocationRefused then Raised(Refused) else Raised(BareServerMismatch)) &&
                Commands.OnlyInvocationGone(old(Snapshot()), Snapshot(), inv)
    {
      if invocationRefused {
        return Raised(Refused);
      }
      DeleteMessage(inv.message);
      if channel.Err? {
        return Raised(channel.error);
      }
      if channel.value.guild != inv.guild {
        return Raised(BareServerMismatch);
      }
      if target.Err? {
        return Raised(target.error);
      }
      if content.Err? {
        return Raised(content.error);
      }
      var text := StripFence(content.value);
      ReportFeedback(Chat.Feedback(Chat.EditAction, inv.author, text, target.value));
      if editRefused {
        return Raised(Refused);
      }
      EditMessage(target.value, text);
      outcome := Completed;
    }

    /** `delete [channel_id] <message_id>`, with the yes/no confirmation. */
    method Delete(inv: Chat.Invocation, invocationRefused: bool,
                  channel: Result<Chat.Channel>, target: Result<Chat.MessageId>,
                  incoming: seq<Chat.Reply>, refusal: Option<DeleteStep>)
      returns (outcome: Outcome)
      requires Valid()
      requires Resolved(RemoveInvocation(Snapshot(), inv, invocationRefused), channel, target)
      modifies this
      ensures Valid()
      ensures Snapshot() == DeleteSpec(old(Snapshot()), inv, invocationRefused, channel, target, incoming, refusal).world
      ensures outcome == DeleteSpec(old(Snapshot()), inv, invocationRefused, channel, target, incoming, refusal).outcome
      ensures channel.Ok? && channel.value.guild != inv.guild ==>
                outcome == Raised(ServerMismatch) && Commands.OnlyInvocationGone(old(Snapshot()), Snapshot(), inv)
    {
      if !invocationRefused {
        DeleteMessage(inv.message);
      }
      if channel.Err? {
        return Raised(channel.error);
      }
      if channel.value.guild != inv.guild {
        return Raised(ServerMismatch);
      }
      if target.Err? {
        return Raised(target.error);
      }
      var original := messages[target.value];
      var prompt := PostPrompt(inv.channel, original);
      var answer := WaitFor(incoming, inv.author);
      if answer.None? {
        var _ := PostMessage(inv.channel, DeleteTimeoutText);
        return Completed;
      }
      var choice := ReceiveAnswer(answer.value);
      if !IsYes(answer.value.content) {
        // the cancellation notice is a coroutine that is never awaited
        return Completed;
      }
      if refusal == Some(ReplyStep) {
        return Raised(DeletionRefused);
      }
      DeleteMessage(choice);
      if refusal == Some(TargetStep) {
        return Raised(DeletionRefused);
      }
      DeleteMessage(target.value);
      if refusal == Some(PromptStep) {
        return Raised(DeletionRefused);
      }
      DeleteMessage(prompt);
      ReportFeedback(Chat.Feedback(Chat.DeleteAction, inv.author, original.content, target.value));
      outcome := Completed;
    }

    /** `fetch [channel_id] <message_id>`: reports the target, changes nothing else. */
    method Fetch(inv: Chat.Invocation, invocationRefused: bool,
                 channel: Result<Chat.Channel>, target: Result<Chat.MessageId>)
      returns (outcome: Outcome)
      requires Valid()
      requires Resolved(RemoveInvocation(Snapshot(), inv, invocationRefused), channel, target)
      modifies this
      ensures Valid()
      ensures Snapshot() == FetchSpec(old(Snapshot()), inv, invocationRefused, channel, target).world
      ensures outcome == FetchSpec(old(Snapshot()), inv, invocationRefused, channel, target).outcome
      ensures messages == RemoveInvocation(old(Snapshot()), inv, invocationRefused).messages
    {
      if !invocationRefused {
        DeleteMessage(inv.message);
      }
      if channel.Err? {
        return Raised(channel.error);
      }
      if channel.value.guild != inv.guild {
        return Raised(ServerMismatch);
      }
      if target.Err? {
        return Raised(target.error);
      }
      ReportFeedback(Chat.Feedback(Chat.FetchAction, inv.author, messages[target.value].content, target.value));
      outcome := Completed;
    }
  }
}
