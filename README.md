# Message commands of a chat bot, modelled in Dafny

This project models the message-command cog of a Discord bot (`cogs/messages.py`) and the small
stats cog beside it (`cogs/stats.py`). An authorised operator uses the bot to send, edit, delete
and fetch messages in a channel. Every command first deletes the command message that invoked it.
It then refuses channels of another server (guild), does its work and reports what it did in a
message-info record. `delete` asks for a yes/no confirmation first. A refused deletion of the
command message is swallowed (except in `edit`), and `delete` answers its own confirmation
timeout. Other failures reach the cog's error handler, which shows the error's text, answers a
timeout with a fixed text, or re-raises the error.

The model has these modules:

- `Chat`: the abstract chat state. It holds messages, each with its channel, author and content.
  It also holds an output trace of what the bot posted, prompted, edited, deleted and reported,
  and the pure updates the transport calls make.
- `Errors`: the exception classes the cogs tell apart, as tags with their text.
- `Fence`: Python slice semantics and the code-fence stripping of `send` and `edit`.
- `Confirmation`: `is_correct`, `wait_for` over the messages that arrive before the deadline, and
  the `lower() == 'yes'` test.
- `Commands`: the messages cog's error table. It also has one function per command, from the state
  before the command to the state after it and its outcome (completed, or the exception it raises),
  and the lemmas about them.
- `Messages`: the class `MessagesCog`, which holds the chat state as fields. Its methods `Send`,
  `Edit`, `Delete`, `Fetch` and `OnCommandError` change it step by step, in the order the cog
  awaits its transport calls. Each method is proved to end in exactly the state and outcome that
  the matching `Commands` function gives.
- `Stats`: the stats cog's own error table, its group dispatch and `stats update`.

Inputs stand in for what the model does not see:

- The results of the `src.helpers` resolvers are inputs: the resolved channel with its guild, the
  resolved message id and the checked content. Each is a `Result`, the value or the exception the
  helper raised.
- Each `…Refused` flag says that the platform answers that transport call with `Forbidden`.
- The messages that arrive while `delete` waits are an input sequence; the timeout is "none of
  them passes `is_correct`".

The model keeps these behaviours of the code exactly as written, although a reader might expect otherwise:

- The fence is looked for at characters 1..4 (after the space that `rest_is_raw` keeps), not at
  the first three characters.
- The confirmation is `content.lower() == 'yes'`, without trimming, so `" yes"` declines.
- The answer is not required to come from the same channel as the prompt; only its author is
  checked.
- The `delete` timeout is answered inside `delete` ("Timedout, Please re-do the command.") and
  never reaches the error handler.
- The cancellation notice on the decline path is a coroutine that is never awaited, so nothing is
  sent.
- `edit` deletes its command message without catching `Forbidden`, so that refusal aborts `edit`.
  It goes to the handler as an unlisted error and is re-raised.
- The messages cog's table has no "not found" entry: anything it does not list, including
  `commands.NoPrivateMessage`, is re-raised without an answer.
- Bare `stats` reaches `stats update` through `ctx.invoke`, which in discord.py calls the callback
  without running its checks. So bare `stats` sends the removal notice even in a direct message,
  while `stats update` typed by name there fails its `guild_only` check.

## Model

| member | source | states |
|---|---|---|
| `Fence.Slice` | cogs/messages.py:42-43 | Python's `s[a:b]`: bounds clamped, never longer than `s`, empty when the clamped bounds cross |
| `Fence.HasFence` | cogs/messages.py:42 | the fence test as written with Python slices, `content[1:4]` and `content[-3:]` both equal to "```"; characterised by `Fence.HasFenceIff` |
| `Fence.StripFence` | cogs/messages.py:42-43 | `content[4:-3]` when the fence test holds, the content unchanged otherwise, applied once; its properties are `Fence.StripFenceSpec`, `Fence.StripFenceLength` and `Fence.StripFenceRoundTrip` |
| `Fence.HasFenceIff` | cogs/messages.py:42 | the fence test holds exactly when the content has at least 4 characters, "```" at 1..4 and "```" as its last three |
| `Fence.StripFenceSpec` | cogs/messages.py:42-43 | stripping gives `c[4..len(c)-3]` when fenced (empty below 7 characters) and `c` unchanged otherwise |
| `Fence.StripFenceLength` | cogs/messages.py:42-43 | the result is never longer than the content; when fenced it is exactly 7 characters shorter, or empty |
| `Fence.StripFenceRoundTrip` | cogs/messages.py:30-43 | any text wrapped as one leading character + "```" + text + "```" strips back to the text, whatever the text holds |
| `Fence.StripOnceOnly` | cogs/messages.py:59-60 | only the outer fence is removed: `" ```a```b```"` gives `"a```b"`, and a fenced inner text keeps its fence |
| `Fence.UnspacedFenceKept` | cogs/messages.py:42-43 | content without the leading character (`"```hi```"`) is not recognised as fenced and stays as it is |
| `Fence.OverlappingFenceEmpty` | cogs/messages.py:42-43 | 4 to 6 characters whose markers overlap pass the test and strip to the empty string |
| `Confirmation.IsCorrect` | cogs/messages.py:68-69 | a message qualifies when its author is the invoker; its channel is not looked at (see `Confirmation.AnswerFromAnyChannel`) |
| `Confirmation.WaitFor` | cogs/messages.py:94 | the answer is an arriving message whose author is the invoker; there is none (timeout) exactly when no arriving message has that author |
| `Confirmation.WaitForFirst` | cogs/messages.py:94 | the answer is the first qualifying message: every message before it has another author |
| `Confirmation.AnswerFromAnyChannel` | cogs/messages.py:68-69 | a message from the invoker counts in any channel, and a "yes" from anyone else is never the answer |
| `Confirmation.Lower` | cogs/messages.py:98 | lower-casing keeps the length, leaves no upper-case ASCII letter, keeps every other character, and replaces each upper-case letter by its lower-case form |
| `Confirmation.LowerIdempotent` | cogs/messages.py:98 | lower-casing an already lower-cased text changes nothing |
| `Confirmation.IsYes` | cogs/messages.py:98 | `content.lower() == 'yes'` without trimming; characterised by `Confirmation.IsYesIff` |
| `Confirmation.IsYesIff` | cogs/messages.py:98 | the answer confirms exactly when it is three characters, y/Y then e/E then s/S |
| `Confirmation.YesExamples` | cogs/messages.py:98 | "yes", "YES", "yEs" confirm; " yes", "yes ", "y", "no" do not |
| `Commands.MessagesReaction` | cogs/messages.py:13-27 | the messages cog's error table: an answer and a re-raise decision per error; its properties are `Commands.MessagesReactionSpec` |
| `Commands.HandleSpec` | cogs/messages.py:13-27 | the handler's effect on the chat state: its answer is posted in the invocation channel; its properties are `Commands.HandleSpecEffect` |
| `Commands.RemoveInvocation` | cogs/messages.py:32-35 | the guarded deletion of the command message: a Forbidden answer leaves the state as it was |
| `Commands.SendSpec` | cogs/messages.py:30-45 | the state and outcome after send; its properties are `Commands.SendAcrossServers`, `Commands.SendPostsStripped` and `Commands.SendScenario` |
| `Commands.EditSpec` | cogs/messages.py:48-63 | the state and outcome after edit; its properties are `Commands.EditAcrossServers`, `Commands.EditReportsThenEdits`, `Commands.EditRefusedAfterReport`, `Commands.EditTouchesOnlyTarget`, `Commands.EditFailsBeforeReport`, `Commands.EditMissingTarget` and `Commands.EditInvocationUnguarded` |
| `Commands.ConfirmedDelete` | cogs/messages.py:99-105 | the three deletions after yes and the report; its properties are `Commands.ConfirmedDeleteEffect` |
| `Commands.DeleteSpec` | cogs/messages.py:66-114 | the state and outcome after delete; its properties are `Commands.DeleteAcrossServers`, `Commands.DeletionsNeedYes`, `Commands.DeleteTargetGoneIff`, `Commands.DeleteTimeout`, `Commands.DeleteDeclined`, `Commands.DeleteConfirmed` and `Commands.DeleteScenario` |
| `Commands.FetchSpec` | cogs/messages.py:116-129 | the state and outcome after fetch; its properties are `Commands.FetchAcrossServers` and `Commands.FetchReadOnly` |
| `Commands.MessagesReactionSpec` | cogs/messages.py:13-27 | the handler answers or re-raises, never both. It shows the text of MissingPermission, ContentError, DifferentServer and ConfigNotSet, answers a timeout with "Timedout, Please try again." and re-raises everything else |
| `Commands.HandleSpecEffect` | cogs/messages.py:13-27 | a re-raised error leaves the chat state unchanged; any other error appends exactly one post to the trace: the reaction's text, in the invocation channel |
| `Commands.SendAcrossServers` | cogs/messages.py:32-39 | send to another server's channel raises DifferentServer; at most the command message is gone, nothing is posted or reported |
| `Commands.EditAcrossServers` | cogs/messages.py:50-54 | edit of another server's channel raises DifferentServer with empty text exactly when the unguarded deletion of the command message went through, and that deletion's Forbidden when it was refused; at most the command message is gone |
| `Commands.DeleteAcrossServers` | cogs/messages.py:70-77 | delete in another server's channel raises DifferentServer with its text, before any prompt or deletion |
| `Commands.FetchAcrossServers` | cogs/messages.py:118-125 | fetch from another server's channel raises DifferentServer with its text, and makes no report |
| `Commands.SendPostsStripped` | cogs/messages.py:41-45 | a successful send posts the stripped content as a new bot message with a fresh id in the resolved channel, then reports exactly that content and id |
| `Commands.SendScenario` | cogs/messages.py:30-45 | `send 123 ```hi```` creates a bot message "hi" in channel 123 and reports a send of "hi" |
| `Commands.EditReportsThenEdits` | cogs/messages.py:58-63 | a successful edit reports the stripped new content first and then edits; only the target's content changes |
| `Commands.EditRefusedAfterReport` | cogs/messages.py:62-63 | when the platform refuses the edit, the report has already been made and no message changed |
| `Commands.EditTouchesOnlyTarget` | cogs/messages.py:49-63 | on every path, edit removes at most its command message and changes at most the target's content; no message moves or changes author |
| `Commands.EditInvocationUnguarded` | cogs/messages.py:50 | a Forbidden answer to edit's deletion of its command message aborts edit with nothing changed, and the handler re-raises it |
| `Commands.EditFailsBeforeReport` | cogs/messages.py:51-62 | when the channel, the guild check, the target lookup or the content check fails, edit raises before its report and its edit: no feedback is sent, no message changes, and at most the command message is gone |
| `Commands.EditMissingTarget` | cogs/messages.py:57 | editing a message that cannot be found in a channel of the invoker's server raises the lookup's error, with only the command message deleted |
| `Commands.DeletionsNeedYes` | cogs/messages.py:93-114 | without a confirming answer from the invoker, delete keeps every message besides its command message unchanged and completes or raises only the resolution errors |
| `Commands.DeleteTargetGoneIff` | cogs/messages.py:98-104 | the target is gone afterwards exactly when the answer said yes and neither the answer's nor the target's deletion was refused |
| `Commands.DeleteTimeout` | cogs/messages.py:93-96 | with no qualifying answer, delete completes without reaching the handler: it posts the prompt, then "Timedout, Please re-do the command.", and the target is kept |
| `Commands.DeleteDeclined` | cogs/messages.py:106-114 | any answer but yes deletes nothing and sends nothing after the prompt; only the prompt and the answer are added |
| `Commands.ConfirmedDeleteEffect` | cogs/messages.py:99-104 | the three deletions stop at the first refusal, which raises ContentError and leaves exactly the earlier deletions done, in the trace and in the messages; with no refusal all three happen in order and are followed by the report |
| `Commands.DeleteConfirmed` | cogs/messages.py:99-105 | after yes, delete removes the answer, then the target, then the prompt, and then reports the target's original content. A refusal at one step raises ContentError "There was an unknown error!" and makes no report. The deletions before that step stay done: the answer is gone unless its own deletion was refused, the target is gone only after a refusal of the prompt's deletion, the prompt remains, and every other message is unchanged |
| `Commands.DeleteScenario` | cogs/messages.py:79-105 | `delete 123 456` answered "yes" removes 456, the prompt and the answer; the last record is a delete report with 456's original text |
| `Commands.FetchReadOnly` | cogs/messages.py:116-129 | fetch changes no message besides removing its command message. It completes exactly when the channel is in the invoker's server and the target resolved, and then reports the target's content |
| `Messages.MessagesCog.OnCommandError` | cogs/messages.py:13-27 | the handler's new state and re-raise decision are those of the error table; it re-raises exactly NoPrivateMessage, Forbidden and unlisted errors |
| `Messages.MessagesCog.Send` | cogs/messages.py:30-45 | the cog's chat state and outcome after send are those given by the send function; across servers, only the command message may go |
| `Messages.MessagesCog.Edit` | cogs/messages.py:48-63 | the chat state and outcome after edit are those given by the edit function; across servers it raises DifferentServer when its command message was deleted and Forbidden when that deletion was refused, and only the command message may go |
| `Messages.MessagesCog.Delete` | cogs/messages.py:66-114 | the chat state and outcome after delete are those given by the delete function; across servers DifferentServer is raised and only the command message may go |
| `Messages.MessagesCog.Fetch` | cogs/messages.py:116-129 | the chat state and outcome after fetch are those given by the fetch function; the messages are those left after removing the command message |
| `Stats.StatsReaction` | cogs/stats.py:30-47 | the stats cog's error table: one message per error and a re-raise decision; its properties are `Stats.StatsReactionSpec` and `Stats.TablesDisagree` |
| `Stats.Dispatch` | cogs/stats.py:49-52 | the subcommand the group runs: `stats update` when none is invoked |
| `Stats.ForceUpdate` | cogs/stats.py:54-59 | `stats update`: NoPrivateMessage when its guild-only check runs in a direct message, the removal notice otherwise |
| `Stats.RunStats` | cogs/stats.py:49-59 | a whole stats invocation with its error handling; its properties are `Stats.StatsRunSpec` and `Stats.BareStatsIsUpdate` |
| `Stats.StatsReactionSpec` | cogs/stats.py:30-47 | every error gets exactly one message; the four listed kinds get their text and are not re-raised; any other kind gets a message opening "There was an unknown error!", naming the support pointer and ending with the error text, and is re-raised |
| `Stats.TablesDisagree` | cogs/stats.py:30-47 | the two cogs disagree: DifferentServer is shown by messages but unknown to stats, NoPrivateMessage the reverse, a timeout fixed text against unknown. MissingPermission, ContentError and ConfigNotSet agree |
| `Stats.BareStatsIsUpdate` | cogs/stats.py:49-59 | bare `stats` (no subcommand invoked) behaves everywhere as `stats update` does in a guild, and differs from `stats update` in a direct message, where only the named subcommand is refused |
| `Stats.StatsRunSpec` | cogs/stats.py:49-59 | every stats run sends exactly one message and re-raises nothing: the removal notice, or for `stats update` in a direct message the NoPrivateMessage text verbatim |

## Left out

- The Discord transport. Sending, editing and deleting are pure updates of the chat state plus trace events.
- Transport failures other than `Forbidden` at the modelled points are not modelled. This covers a missing message answered with NotFound, network errors, and failures of `ctx.send` or of the report.
- The text of a `Forbidden` exception is not modelled (empty). The handler re-raises it without showing it.
- The `src.helpers` functions are not part of this model. Their results are inputs, and which error kind they raise is not assumed.
- `check_content` can prompt for the content and wait for it; that exchange is not modelled.
- A resolved target is required to exist in the resolved channel, as `get_message` returns it.
- `send_message_info_embed` and `create_embed` are modelled only by the record they are given (action, actor, content, target) and by the prompt's two fields. Titles, colours, mentions and layout are left out.
- The prompt card is a bot message with empty text content.
- `cog_check` / `check_if_manage_role` is an external permission predicate and is not modelled.
- `bot.wait_for` and its 20-second deadline are abstract: the input is the sequence of messages that arrive before the deadline. Only the chosen answer enters the chat state; other traffic belongs to other conversations and is not tracked.
- Confirmation.Lower: folds ASCII letters only, while Python's `str.lower` folds all of Unicode. No non-ASCII character lower-cases to "y", "e" or "s", so the `== 'yes'` decision is the same.
- Errors.Timeout and Errors.Forbidden stand for the unwrapped exceptions, which the handlers' `isinstance` tests are written against. discord.py wraps an exception raised in a command body that is not a `CommandError` in `CommandInvokeError` before the cog handler sees it. So a timeout or Forbidden raised in a command body really reaches the handler as an unlisted error, and the messages cog's timeout branch does not fire for it. This wrapping is not modelled.
- The errors module of the bot is not part of this model. `DifferentServer()` raised without an argument is given the empty text. `commands.NoPrivateMessage` carries discord.py's default text.
- Message ids come from a counter in the chat state, standing in for the platform's fresh ids.
- Argument parsing (`rest_is_raw`, optional leading ids) happens in the command framework and is not modelled. The content reaches the model with its leading space.
- `setup` and its `print` are left out. So are concurrency between invocations and asyncio scheduling.
