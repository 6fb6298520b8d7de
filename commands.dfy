/**
 * The four message commands of cogs/messages.py and its error handler, as
 * functions from the chat state before a command to the state after it and
 * the command's outcome. The MessagesCog class carries out the same steps
 * imperatively and is proved to agree with these functions; the lemmas here
 * state what the commands promise.
 *
 * What the helpers return (the resolved channel, the resolved message id,
 * the checked content) is an input: either the value or the exception the
 * helper raised. Each `...Refused` flag says that the platform answers the
 * corresponding transport call with Forbidden.
 */
module Commands {
  import opened Wrappers
  import opened Errors
  import opened Chat
  import opened Fence
  import opened Confirmation

  datatype Outcome = Completed | Raised(error: Error)

  datatype Run = Run(world: World, outcome: Outcome)

  /** The three deletions a confirmed delete makes, in order. */
  datatype DeleteStep = ReplyStep | TargetStep | PromptStep

  const TimeoutReply: string := "Timedout, Please try again."
  const DeleteTimeoutText: string := "Timedout, Please re-do the command."
  const OtherServerText: string := "That channel is not in this server, Please re-do the command"
  /** `DifferentServer()` as send and edit raise it, without an argument. */
  const BareServerMismatch: Error := Error(DifferentServer, "")
  /** `DifferentServer(...)` as delete and fetch raise it. */
  const ServerMismatch: Error := Error(DifferentServer, OtherServerText)
  const DeletionRefused: Error := Error(ContentError, "There was an unknown error!")
  const Refused: Error := Error(Forbidden, "")

  // ----- cog_command_error -----

  /** The kinds whose text the handler shows verbatim. */
  predicate ShownVerbatim(k: ErrorKind) {
    k in {MissingPermission, ContentError, DifferentServer, ConfigNotSet}
  }

  function MessagesReaction(e: Error): Reaction {
    if ShownVerbatim(e.kind) then Reaction(Some(e.text), false)
    else if e.kind == Timeout then Reaction(Some(TimeoutReply), false)
    else Reaction(None, true)
  }

  /** The handler either answers or re-raises, never both; what it answers is decided by the kind. */
  lemma MessagesReactionSpec(e: Error)
    ensures MessagesReaction(e).reply.Some? <==> !MessagesReaction(e).reraise
    ensures MessagesReaction(e).reraise <==> e.kind in {NoPrivateMessage, Forbidden, Other}
    ensures e.kind in {MissingPermission, ContentError, DifferentServer, ConfigNotSet} ==>
              MessagesReaction(e).reply == Some(e.text)
    ensures e.kind == Timeout ==> MessagesReaction(e).reply == Some("Timedout, Please try again.")
  {
  }

  /** The handler's effect: its one answer goes to the invocation channel. */
  function HandleSpec(w: World, inv: Invocation, e: Error): (World, bool) {
    var r := MessagesReaction(e);
    (if r.reply.Some? then Post(w, inv.channel, r.reply.value) else w, r.reraise)
  }

  /** A re-raised error leaves the state alone; any other posts exactly one message and nothing else. */
  lemma HandleSpecEffect(w: World, inv: Invocation, e: Error)
    ensures HandleSpec(w, inv, e).1 ==> HandleSpec(w, inv, e).0 == w
    ensures !HandleSpec(w, inv, e).1 ==>
      HandleSpec(w, inv, e).0.trace == w.trace + [Posted(w.nextId, inv.channel, MessagesReaction(e).reply.value)]
  {
  }

  // ----- the commands -----

  /** The guarded `ctx.message.delete()`: a Forbidden answer is swallowed. */
  function RemoveInvocation(w: World, inv: Invocation, refused: bool): World {
    if refused then w else Delete(w, inv.message)
  }

  /** What `get_message` guarantees: the message it returns exists in the resolved channel. */
  predicate Resolved(w: World, channel: Result<Channel>, target: Result<MessageId>) {
    channel.Ok? && target.Ok? ==>
      target.value in w.messages && w.messages[target.value].channel == channel.value.id
  }

  /** The invoking message may have gone, and nothing else happened. */
  predicate OnlyInvocationGone(w: World, w': World, inv: Invocation) {
    && w'.bot == w.bot && w'.nextId == w.nextId
    && (w'.messages == w.messages || w'.messages == w.messages - {inv.message})
    && (w'.trace == w.trace || w'.trace == w.trace + [Deleted(inv.message)])
  }

  function SendSpec(w: World, inv: Invocation, invocationRefused: bool,
                    channel: Result<Channel>, content: Result<string>, sendRefused: bool): Run
  {
    var w1 := RemoveInvocation(w, inv, invocationRefused);
    if channel.Err? then Run(w1, Raised(channel.error))
    else if channel.value.guild != inv.guild then Run(w1, Raised(BareServerMismatch))
    else if content.Err? then Run(w1, Raised(content.error))
    else if sendRefused then Run(w1, Raised(Refused))
    else
      var text := StripFence(content.value);
      Run(Report(Post(w1, channel.value.id, text), Feedback(SendAction, inv.author, text, w1.nextId)), Completed)
  }

  function EditSpec(w: World, inv: Invocation, invocationRefused: bool,
                    channel: Result<Channel>, target: Result<MessageId>, content: Result<string>,
                    editRefused: bool): Run
    requires Resolved(Delete(w, inv.message), channel, target)
  {
    if invocationRefused then Run(w, Raised(Refused))
    else
      var w1 := Delete(w, inv.message);
      if channel.Err? then Run(w1, Raised(channel.error))
      else if channel.value.guild != inv.guild then Run(w1, Raised(BareServerMismatch))
      else if target.Err? then Run(w1, Raised(target.error))
      else if content.Err? then Run(w1, Raised(content.error))
      else
        var text := StripFence(content.value);
        var w2 := Report(w1, Feedback(EditAction, inv.author, text, target.value));
        if editRefused then Run(w2, Raised(Refused))
        else Run(Edit(w2, target.value, text), Completed)
  }

  /** The three deletions after a `yes`, stopping at the first the platform refuses. */
  function ConfirmedDelete(w: World, inv: Invocation, t: MessageId, original: Msg,
                           prompt: MessageId, reply: MessageId, refusal: Option<DeleteStep>): Run
  {
    if refusal == Some(ReplyStep) then Run(w, Raised(DeletionRefused))
    else
      var w1 := Delete(w, reply);
      if refusal == Some(TargetStep) then Run(w1, Raised(DeletionRefused))
      else
        var w2 := Delete(w1, t);
        if refusal == Some(PromptStep) then Run(w2, Raised(DeletionRefused))
        else Run(Report(Delete(w2, prompt), Feedback(DeleteAction, inv.author, original.content, t)), Completed)
  }

  function DeleteSpec(w: World, inv: Invocation, invocationRefused: bool,
                      channel: Result<Channel>, target: Result<MessageId>,
                      incoming: seq<Reply>, refusal: Option<DeleteStep>): Run
    requires Resolved(RemoveInvocation(w, inv, invocationRefused), channel, target)
  {
    var w1 := RemoveInvocation(w, inv, invocationRefused);
    if channel.Err? then Run(w1, Raised(channel.error))
    else if channel.value.guild != inv.guild then Run(w1, Raised(ServerMismatch))
    else if target.Err? then Run(w1, Raised(target.error))
    else
      var original := w1.messages[target.value];
      var w2 := Prompt(w1, inv.channel, original);
      match WaitFor(incoming, inv.author)
      case None => Run(Post(w2, inv.channel, DeleteTimeoutText), Completed)
      case Some(r) =>
        var w3 := Arrive(w2, r);
        // the decline branch builds a ctx.send coroutine and never awaits it: nothing is sent
        if !IsYes(r.content) then Run(w3, Completed)
        else ConfirmedDelete(w3, inv, target.value, original, w1.nextId, w2.nextId, refusal)
  }

  function FetchSpec(w: World, inv: Invocation, invocationRefused: bool,
                     channel: Result<Channel>, target: Result<MessageId>): Run
    requires Resolved(RemoveInvocation(w, inv, invocationRefused), channel, target)
  {
    var w1 := RemoveInvocation(w, inv, invocationRefused);
    if channel.Err? then Run(w1, Raised(channel.error))
    else if channel.value.guild != inv.guild then Run(w1, Raised(ServerMismatch))
    else if target.Err? then Run(w1, Raised(target.error))
    else Run(Report(w1, Feedback(FetchAction, inv.author, w1.messages[target.value].content, target.value)), Completed)
  }

  // ----- what the commands promise -----

  lemma ValidAfterRemoval(w: World, inv: Invocation, refused: bool)
    requires Valid(w)
    ensures Valid(RemoveInvocation(w, inv, refused))
    ensures RemoveInvocation(w, inv, refused).nextId == w.nextId
    ensures RemoveInvocation(w, inv, refused).nextId !in RemoveInvocation(w, inv, refused).messages
  {
  }

  /** send into another server's channel: DifferentServer, and nothing but the command message is touched. */
  lemma SendAcrossServers(w: World, inv: Invocation, invocationRefused: bool,
                          ch: Channel, content: Result<string>, sendRefused: bool)
    requires ch.guild != inv.guild
    ensures var run := SendSpec(w, inv, invocationRefused, Ok(ch), content, sendRefused);
            run.outcome == Raised(Error(DifferentServer, "")) && OnlyInvocationGone(w, run.world, inv)
  {
  }

  /** edit into another server's channel: DifferentServer once the unguarded deletion went through, its Forbidden otherwise; nothing else touched. */
  lemma EditAcrossServers(w: World, inv: Invocation, invocationRefused: bool,
                          ch: Channel, target: Result<MessageId>, content: Result<string>, editRefused: bool)
    requires Resolved(Delete(w, inv.message), Ok(ch), target)
    requires ch.guild != inv.guild
    ensures var run := EditSpec(w, inv, invocationRefused, Ok(ch), target, content, editRefused);
            run.outcome == (if invocationRefused then Raised(Refused) else Raised(BareServerMismatch)) &&
            OnlyInvocationGone(w, run.world, inv)
  {
  }

  /** delete into another server's channel: DifferentServer before any prompt or deletion. */
  lemma DeleteAcrossServers(w: World, inv: Invocation, invocationRefused: bool,
                            ch: Channel, target: Result<MessageId>,
                            incoming: seq<Reply>, refusal: Option<DeleteStep>)
    requires Resolved(RemoveInvocation(w, inv, invocationRefused), Ok(ch), target)
    requires ch.guild != inv.guild
    ensures var run := DeleteSpec(w, inv, invocationRefused, Ok(ch), target, incoming, refusal);
            run.outcome == Raised(Error(DifferentServer, OtherServerText)) && OnlyInvocationGone(w, run.world, inv)
  {
  }

  /** fetch from another server's channel: DifferentServer, no report. */
  lemma FetchAcrossServers(w: World, inv: Invocation, invocationRefused: bool,
                           ch: Channel, target: Result<MessageId>)
    requires Resolved(RemoveInvocation(w, inv, invocationRefused), Ok(ch), target)
    requires ch.guild != inv.guild
    ensures var run := FetchSpec(w, inv, invocationRefused, Ok(ch), target);
            run.outcome == Raised(Error(DifferentServer, OtherServerText)) && OnlyInvocationGone(w, run.world, inv)
  {
  }

  /** A successful send posts the stripped content as a new bot message in the resolved channel, then reports it. */
  lemma SendPostsStripped(w: World, inv: Invocation, invocationRefused: bool, ch: Channel, c: string)
    requires Valid(w)
    requires ch.guild == inv.guild
    ensures var run := SendSpec(w, inv, invocationRefused, Ok(ch), Ok(c), false);
            var w1 := RemoveInvocation(w, inv, invocationRefused);
            var text := StripFence(c);
            && run.outcome == Completed
            && w1.nextId !in w1.messages
            && run.world.messages == w1.messages[w1.nextId := Msg(ch.id, w.bot, text)]
            && run.world.trace == w1.trace + [Posted(w1.nextId, ch.id, text),
                                              Reported(Feedback(SendAction, inv.author, text, w1.nextId))]
  {
  }

  /** `send 123 ```hi```` (the raw rest keeps its leading space) posts `hi` in channel 123 and reports a send. */
  lemma SendScenario(w: World, inv: Invocation, g: ServerId)
    requires Valid(w)
    requires inv.guild == Some(g)
    ensures var run := SendSpec(w, inv, false, Ok(Channel(123, Some(g))), Ok(" ```hi```"), false);
            var id := w.nextId;
            && run.outcome == Completed
            && id in run.world.messages && run.world.messages[id] == Msg(123, w.bot, "hi")
            && Reported(Feedback(SendAction, inv.author, "hi", id)) in run.world.trace
  {
  }

  /**
   * A successful edit reports first and edits second; the report carries the
   * stripped new content, and only the target's content changes.
   */
  lemma EditReportsThenEdits(w: World, inv: Invocation, ch: Channel, t: MessageId, c: string)
    requires Resolved(Delete(w, inv.message), Ok(ch), Ok(t))
    requires ch.guild == inv.guild
    ensures var run := EditSpec(w, inv, false, Ok(ch), Ok(t), Ok(c), false);
            var w1 := Delete(w, inv.message);
            var text := StripFence(c);
            && run.outcome == Completed
            && run.world.trace == w1.trace + [Reported(Feedback(EditAction, inv.author, text, t)), Edited(t, text)]
            && run.world.messages.Keys == w1.messages.Keys
            && run.world.messages[t] == Msg(w1.messages[t].channel, w1.messages[t].author, text)
            && (forall id :: id in w1.messages && id != t ==> run.world.messages[id] == w1.messages[id])
  {
  }

  /** When the platform refuses the edit, the report has already gone out and no message changes. */
  lemma EditRefusedAfterReport(w: World, inv: Invocation, ch: Channel, t: MessageId, c: string)
    requires Resolved(Delete(w, inv.message), Ok(ch), Ok(t))
    requires ch.guild == inv.guild
    ensures var run := EditSpec(w, inv, false, Ok(ch), Ok(t), Ok(c), true);
            var w1 := Delete(w, inv.message);
            && run.outcome == Raised(Error(Forbidden, ""))
            && run.world.messages == w1.messages
            && run.world.trace == w1.trace + [Reported(Feedback(EditAction, inv.author, StripFence(c), t))]
  {
  }

  /** Whatever happens, edit changes no message but the command message (gone) and the target (its content). */
  lemma EditTouchesOnlyTarget(w: World, inv: Invocation, invocationRefused: bool,
                              channel: Result<Channel>, target: Result<MessageId>, content: Result<string>,
                              editRefused: bool)
    requires Resolved(Delete(w, inv.message), channel, target)
    ensures var run := EditSpec(w, inv, invocationRefused, channel, target, content, editRefused);
            && run.world.nextId == w.nextId
            && run.world.messages.Keys <= w.messages.Keys
            && (forall id :: id in w.messages && id != inv.message ==> id in run.world.messages)
            && (forall id :: id in run.world.messages ==>
                  run.world.messages[id].channel == w.messages[id].channel &&
                  run.world.messages[id].author == w.messages[id].author &&
                  (target.Err? || id != target.value ==> run.world.messages[id] == w.messages[id]))
  {
  }

  /**
   * A failing channel, guild, target or content step aborts edit before the report and the edit:
   * no feedback is sent, no message changes, and at most the command message is gone.
   */
  lemma EditFailsBeforeReport(w: World, inv: Invocation, invocationRefused: bool,
                              channel: Result<Channel>, target: Result<MessageId>, content: Result<string>,
                              editRefused: bool)
    requires Resolved(Delete(w, inv.message), channel, target)
    requires channel.Err? || channel.value.guild != inv.guild || target.Err? || content.Err?
    ensures var run := EditSpec(w, inv, invocationRefused, channel, target, content, editRefused);
            run.outcome.Raised? && OnlyInvocationGone(w, run.world, inv)
  {
  }

  /** Editing a message that does not exist raises the lookup's error with only the command message gone. */
  lemma EditMissingTarget(w: World, inv: Invocation, ch: Channel, e: Error,
                          content: Result<string>, editRefused: bool)
    requires Resolved(Delete(w, inv.message), Ok(ch), Err(e))
    requires ch.guild == inv.guild
    ensures EditSpec(w, inv, false, Ok(ch), Err(e), content, editRefused) == Run(Delete(w, inv.message), Raised(e))
  {
  }

  /** A Forbidden answer to deleting edit's own command message aborts edit untouched and is re-raised. */
  lemma EditInvocationUnguarded(w: World, inv: Invocation,
                                channel: Result<Channel>, target: Result<MessageId>, content: Result<string>,
                                editRefused: bool)
    requires Resolved(Delete(w, inv.message), channel, target)
    ensures var run := EditSpec(w, inv, true, channel, target, content, editRefused);
            run == Run(w, Raised(Error(Forbidden, ""))) && HandleSpec(w, inv, run.outcome.error) == (w, true)
  {
  }

  /** The answer confirms: it came from the invoker in time and reads `yes`. */
  predicate Confirms(incoming: seq<Reply>, author: UserId) {
    WaitFor(incoming, author).Some? && IsYes(WaitFor(incoming, author).value.content)
  }

  /** Without a confirming answer, delete removes nothing but its own command message. */
  lemma DeletionsNeedYes(w: World, inv: Invocation, invocationRefused: bool,
                         channel: Result<Channel>, target: Result<MessageId>,
                         incoming: seq<Reply>, refusal: Option<DeleteStep>)
    requires Valid(w)
    requires Resolved(RemoveInvocation(w, inv, invocationRefused), channel, target)
    requires !Confirms(incoming, inv.author)
    ensures var run := DeleteSpec(w, inv, invocationRefused, channel, target, incoming, refusal);
            var w1 := RemoveInvocation(w, inv, invocationRefused);
            && run.outcome == (if channel.Err? then Raised(channel.error)
                               else if channel.value.guild != inv.guild then Raised(ServerMismatch)
                               else if target.Err? then Raised(target.error)
                               else Completed)
            && forall id :: id in w1.messages ==> id in run.world.messages && run.world.messages[id] == w1.messages[id]
  {
  }

  /** Once the target is resolved, it is gone afterwards exactly when the answer confirmed and the reply's and the target's deletions went through. */
  lemma DeleteTargetGoneIff(w: World, inv: Invocation, invocationRefused: bool,
                            ch: Channel, t: MessageId, incoming: seq<Reply>, refusal: Option<DeleteStep>)
    requires Valid(w)
    requires Resolved(RemoveInvocation(w, inv, invocationRefused), Ok(ch), Ok(t))
    requires ch.guild == inv.guild
    ensures var run := DeleteSpec(w, inv, invocationRefused, Ok(ch), Ok(t), incoming, refusal);
            t !in run.world.messages <==>
              Confirms(incoming, inv.author) && refusal != Some(ReplyStep) && refusal != Some(TargetStep)
  {
  }

  /** No qualifying answer in time: handled inside delete (Completed, not the handler), the timeout text is posted, nothing is deleted. */
  lemma DeleteTimeout(w: World, inv: Invocation, invocationRefused: bool,
                      ch: Channel, t: MessageId, incoming: seq<Reply>, refusal: Option<DeleteStep>)
    requires Valid(w)
    requires Resolved(RemoveInvocation(w, inv, invocationRefused), Ok(ch), Ok(t))
    requires ch.guild == inv.guild
    requires forall m :: m in incoming ==> m.author != inv.author
    ensures var run := DeleteSpec(w, inv, invocationRefused, Ok(ch), Ok(t), incoming, refusal);
            var w1 := RemoveInvocation(w, inv, invocationRefused);
            var original := w1.messages[t];
            && run.outcome == Completed
            && run.world.trace == w1.trace + [Prompted(w1.nextId, inv.channel, original.channel, original.content),
                                              Posted(w1.nextId + 1, inv.channel, "Timedout, Please re-do the command.")]
            && t in run.world.messages && run.world.messages[t] == original
  {
  }

  /** Any answer but `yes` from the invoker: nothing deleted and, as the notice is never awaited, nothing sent after the prompt. */
  lemma DeleteDeclined(w: World, inv: Invocation, invocationRefused: bool,
                       ch: Channel, t: MessageId, incoming: seq<Reply>, refusal: Option<DeleteStep>)
    requires Valid(w)
    requires Resolved(RemoveInvocation(w, inv, invocationRefused), Ok(ch), Ok(t))
    requires ch.guild == inv.guild
    requires WaitFor(incoming, inv.author).Some? && !IsYes(WaitFor(incoming, inv.author).value.content)
    ensures var run := DeleteSpec(w, inv, invocationRefused, Ok(ch), Ok(t), incoming, refusal);
            var w1 := RemoveInvocation(w, inv, invocationRefused);
            var original := w1.messages[t];
            var r := WaitFor(incoming, inv.author).value;
            && run.outcome == Completed
            && run.world.trace == w1.trace + [Prompted(w1.nextId, inv.channel, original.channel, original.content)]
            && run.world.messages == w1.messages[w1.nextId := Msg(inv.channel, w.bot, "")]
                                                 [w1.nextId + 1 := Msg(r.channel, r.author, r.content)]
  {
  }

  /** The deletions a confirmed delete attempts, in order: the answer, the target, the prompt. */
  function ConfirmedDeletions(t: MessageId, prompt: MessageId, reply: MessageId): seq<Event> {
    [Deleted(reply), Deleted(t), Deleted(prompt)]
  }

  function StepIndex(s: DeleteStep): nat {
    match s
    case ReplyStep => 0
    case TargetStep => 1
    case PromptStep => 2
  }

  /** The three deletions on their own: each refusal stops the sequence and raises ContentError. */
  lemma ConfirmedDeleteEffect(w: World, inv: Invocation, t: MessageId, original: Msg,
                              prompt: MessageId, reply: MessageId, refusal: Option<DeleteStep>)
    ensures var run := ConfirmedDelete(w, inv, t, original, prompt, reply, refusal);
            var dels := ConfirmedDeletions(t, prompt, reply);
            match refusal
            case None =>
              && run.outcome == Completed
              && run.world.trace == w.trace + dels + [Reported(Feedback(DeleteAction, inv.author, original.content, t))]
              && run.world.messages == w.messages - {reply} - {t} - {prompt}
            case Some(s) =>
              && run.outcome == Raised(DeletionRefused)
              && run.world.trace == w.trace + dels[..StepIndex(s)]
              && run.world.messages == match s
                                       case ReplyStep => w.messages
                                       case TargetStep => w.messages - {reply}
                                       case PromptStep => w.messages - {reply} - {t}
  {
    var dels := ConfirmedDeletions(t, prompt, reply);
    match refusal
    case None =>
      assert w.trace + [Deleted(reply)] + [Deleted(t)] + [Deleted(prompt)] == w.trace + dels;
    case Some(ReplyStep) =>
      assert dels[..0] == [];
    case Some(TargetStep) =>
      assert dels[..1] == [Deleted(reply)];
    case Some(PromptStep) =>
      assert dels[..2] == [Deleted(reply), Deleted(t)];
  }

  /**
   * After `yes`: the answer, the target and the prompt are deleted in that
   * order and then the report with the target's original content is made;
   * a refusal at one step raises ContentError, keeps the earlier deletions
   * and makes no report.
   */
  lemma DeleteConfirmed(w: World, inv: Invocation, invocationRefused: bool,
                        ch: Channel, t: MessageId, incoming: seq<Reply>, refusal: Option<DeleteStep>)
    requires Valid(w)
    requires Resolved(RemoveInvocation(w, inv, invocationRefused), Ok(ch), Ok(t))
    requires ch.guild == inv.guild
    requires Confirms(incoming, inv.author)
    ensures var run := DeleteSpec(w, inv, invocationRefused, Ok(ch), Ok(t), incoming, refusal);
            var w1 := RemoveInvocation(w, inv, invocationRefused);
            var original := w1.messages[t];
            var p := w1.nextId;
            var head := w1.trace + [Prompted(p, inv.channel, original.channel, original.content)];
            var dels := ConfirmedDeletions(t, p, p + 1);
            match refusal
            case None =>
              && run.outcome == Completed
              && run.world.trace == head + dels + [Reported(Feedback(DeleteAction, inv.author, original.content, t))]
              && run.world.messages == w1.messages - {t}
            case Some(s) =>
              && run.outcome == Raised(Error(ContentError, "There was an unknown error!"))
              && run.world.trace == head + dels[..StepIndex(s)]
              && (p + 1 in run.world.messages <==> s == ReplyStep)
              && (t in run.world.messages <==> s != PromptStep)
              && p in run.world.messages
              && forall id :: id in w1.messages && (id != t || s != PromptStep) ==>
                               id in run.world.messages && run.world.messages[id] == w1.messages[id]
  {
    ValidAfterRemoval(w, inv, invocationRefused);
    var w1 := RemoveInvocation(w, inv, invocationRefused);
    var p := w1.nextId;
    var original := w1.messages[t];
    var r := WaitFor(incoming, inv.author).value;
    var w3 := Arrive(Prompt(w1, inv.channel, original), r);
    assert DeleteSpec(w, inv, invocationRefused, Ok(ch), Ok(t), incoming, refusal)
        == ConfirmedDelete(w3, inv, t, original, p, p + 1, refusal);
    ConfirmedDeleteEffect(w3, inv, t, original, p, p + 1, refusal);
    assert w3.messages - {p + 1} - {t} - {p} == w1.messages - {t};
  }

  /** `delete 123 456` answered `yes`: the answer, 456 and the prompt are removed, and the report shows 456's text. */
  lemma DeleteScenario(w: World, inv: Invocation, g: ServerId, text: string)
    requires Valid(w) && inv.message != 456
    requires 456 in w.messages && w.messages[456] == Msg(123, w.bot, text)
    requires inv.guild == Some(g)
    ensures var run := DeleteSpec(w, inv, false, Ok(Channel(123, Some(g))), Ok(456), [Reply(inv.author, inv.channel, "yes")], None);
            && run.outcome == Completed
            && 456 !in run.world.messages && w.nextId !in run.world.messages && w.nextId + 1 !in run.world.messages
            && run.world.trace[|run.world.trace| - 1] == Reported(Feedback(DeleteAction, inv.author, text, 456))
  {
    IsYesIff("yes");
    DeleteConfirmed(w, inv, false, Channel(123, Some(g)), 456, [Reply(inv.author, inv.channel, "yes")], None);
  }

  /** fetch never changes a message besides removing its own command message, and reports the target's content. */
  lemma FetchReadOnly(w: World, inv: Invocation, invocationRefused: bool,
                      channel: Result<Channel>, target: Result<MessageId>)
    requires Resolved(RemoveInvocation(w, inv, invocationRefused), channel, target)
    ensures var run := FetchSpec(w, inv, invocationRefused, channel, target);
            var w1 := RemoveInvocation(w, inv, invocationRefused);
            && run.world.messages == w1.messages
            && run.world.nextId == w.nextId
            && run.world.trace == (if run.outcome.Completed?
                                   then w1.trace + [Reported(Feedback(FetchAction, inv.author,
                                                                     w1.messages[target.value].content, target.value))]
                                   else w1.trace)
            && (run.outcome.Completed? <==> channel.Ok? && channel.value.guild == inv.guild && target.Ok?)
  {
  }
}
