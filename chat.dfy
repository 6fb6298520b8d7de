/**
 * The abstract chat state the commands act on: messages, each in a channel
 * and with an author, plus the trace of everything the bot has sent, edited,
 * deleted and reported. Channels belong to a server (guild) or to none (a
 * direct message). Ids come from a counter, as the platform hands out fresh
 * ids for new messages.
 */
module Chat {
  import opened Wrappers

  type UserId = nat
  type ServerId = nat
  type ChannelId = nat
  type MessageId = nat

  /** A resolved channel and the guild that owns it (None for a direct message). */
  datatype Channel = Channel(id: ChannelId, guild: Option<ServerId>)

  /** One command invocation: who typed it, where, and the id of the command message itself. */
  datatype Invocation = Invocation(author: UserId, guild: Option<ServerId>, channel: ChannelId, message: MessageId)

  datatype Msg = Msg(channel: ChannelId, author: UserId, content: string)

  /** A message that arrives while the bot waits for a confirmation. */
  datatype Reply = Reply(author: UserId, channel: ChannelId, content: string)

  datatype Action = SendAction | EditAction | DeleteAction | FetchAction

  /** The record handed to the message-info report: action, actor, content, target message. */
  datatype Feedback = Feedback(action: Action, actor: UserId, content: string, target: MessageId)

  datatype Event =
    | Posted(id: MessageId, channel: ChannelId, content: string)
      // the confirmation card: its "Channel" and "Content" fields show the target
    | Prompted(id: MessageId, channel: ChannelId, shownChannel: ChannelId, shownContent: string)
    | Edited(id: MessageId, content: string)
    | Deleted(id: MessageId)
    | Reported(feedback: Feedback)

  datatype World = World(bot: UserId, messages: map<MessageId, Msg>, nextId: nat, trace: seq<Event>)

  /** Every existing message has an id below the counter, so the counter is always fresh. */
  predicate Valid(w: World) {
    forall id :: id in w.messages ==> id < w.nextId
  }

  /** The bot posts `content` in `channel` (`channel.send`, `ctx.send`). */
  function Post(w: World, channel: ChannelId, content: string): World {
    World(w.bot, w.messages[w.nextId := Msg(channel, w.bot, content)], w.nextId + 1,
          w.trace + [Posted(w.nextId, channel, content)])
  }

  /** The bot posts the confirmation card; the card has no text content of its own. */
  function Prompt(w: World, channel: ChannelId, shown: Msg): World {
    World(w.bot, w.messages[w.nextId := Msg(channel, w.bot, "")], w.nextId + 1,
          w.trace + [Prompted(w.nextId, channel, shown.channel, shown.content)])
  }

  /** A user's message arrives on the platform; this is not something the bot sends. */
  function Arrive(w: World, r: Reply): World {
    World(w.bot, w.messages[w.nextId := Msg(r.channel, r.author, r.content)], w.nextId + 1, w.trace)
  }

  function Delete(w: World, id: MessageId): World {
    World(w.bot, w.messages - {id}, w.nextId, w.trace + [Deleted(id)])
  }

  function Edit(w: World, id: MessageId, content: string): World
    requires id in w.messages
  {
    World(w.bot, w.messages[id := w.messages[id].(content := content)], w.nextId,
          w.trace + [Edited(id, content)])
  }

  function Report(w: World, f: Feedback): World {
    w.(trace := w.trace + [Reported(f)])
  }
}
