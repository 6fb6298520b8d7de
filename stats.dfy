/**
 * The stats cog (cogs/stats.py): its own error table, which differs from the
 * messages cog's, and the `stats` group whose only remaining subcommand sends
 * a fixed notice.
 */
module Stats {
  import opened Wrappers
  import opened Errors
  import Commands

  /** The kinds the stats cog shows verbatim without re-raising. */
  predicate ShownByStats(k: ErrorKind) {
    k in {MissingPermission, ContentError, ConfigNotSet, NoPrivateMessage}
  }

  /** The text for any other error: a fixed opening, a pointer to the support command, the error's own text. */
  function UnknownErrorText(support: string, e: Error): string {
    UnknownOpening + SupportLead + support + ErrorLead + e.text
  }

  const UnknownOpening: string := "There was an unknown error!"
  const SupportLead: string := "\nReport a bug or get support from the support server at "
  const ErrorLead: string := "\nError: "

  /** `cog_command_error` of the stats cog; `support` is what `command_with_prefix(ctx, 'support')` gives. */
  function StatsReaction(e: Error, support: string): Reaction {
    if ShownByStats(e.kind) then Reaction(Some(e.text), false)
    else Reaction(Some(UnknownErrorText(support, e)), true)
  }

  /**
   * Exactly one message answers every error. Listed kinds get their text and
   * stop there; any other kind gets the unknown-error text, which opens with
   * the fixed sentence, names the support pointer, ends with the error text,
   * and is then re-raised.
   */
  lemma StatsReactionSpec(e: Error, support: string)
    ensures StatsReaction(e, support).reply.Some?
    ensures StatsReaction(e, support).reraise <==>
              e.kind in {DifferentServer, Timeout, Forbidden, Other}
    ensures !StatsReaction(e, support).reraise ==> StatsReaction(e, support).reply == Some(e.text)
    ensures StatsReaction(e, support).reraise ==>
              var m := StatsReaction(e, support).reply.value;
              && "There was an unknown error!" <= m
              && m[|UnknownOpening + SupportLead|..][..|support|] == support
              && m[|m| - |e.text|..] == e.text
  {
    match e.kind
    case MissingPermission =>
    case ContentError =>
    case ConfigNotSet =>
    case NoPrivateMessage =>
    case _ =>
      var m := StatsReaction(e, support).reply.value;
      var opening := UnknownOpening + SupportLead;
      assert m == opening + support + ErrorLead + e.text;
      assert m[..|opening|] == opening;
      assert opening[..|UnknownOpening|] == UnknownOpening;
      assert m[|opening|..][..|support|] == support;
  }

  /** The two cogs' tables disagree on DifferentServer, NoPrivateMessage and timeouts, and agree on the rest of what both list. */
  lemma TablesDisagree(text: string, support: string)
    ensures var e := Error(DifferentServer, text);
            Commands.MessagesReaction(e) == Reaction(Some(text), false) && StatsReaction(e, support).reraise
    ensures var e := Error(NoPrivateMessage, text);
            Commands.MessagesReaction(e) == Reaction(None, true) && StatsReaction(e, support) == Reaction(Some(text), false)
    ensures var e := Error(Timeout, text);
            Commands.MessagesReaction(e).reply == Some(Commands.TimeoutReply) && StatsReaction(e, support).reraise
    ensures forall k :: k in {MissingPermission, ContentError, ConfigNotSet} ==>
              Commands.MessagesReaction(Error(k, text)) == StatsReaction(Error(k, text), support)
  {
  }

  datatype Subcommand = Update   // `stats update`, alias `stats _update`

  const RemovalNotice: string :=
    "Unfortunately this function had to be removed.\nSee https://github.com/AnotherCat/message-bot/blob/master/CHANGELOG.md/#v110 for more info."

  /** discord.py's text for `commands.NoPrivateMessage()`. */
  const NoPrivateMessageText: string := "This command cannot be used in private messages."

  /** The group callback: with no subcommand invoked it runs `stats update`. */
  function Dispatch(invoked: Option<Subcommand>): Subcommand {
    match invoked
    case None => Update
    case Some(s) => s
  }

  /**
   * Running a subcommand. Invoked by name it passes its `guild_only` check
   * first; reached through `ctx.invoke` from the bare group it does not,
   * since `ctx.invoke` calls the callback directly.
   */
  function ForceUpdate(guild: Option<nat>, checked: bool): Result<string> {
    if checked && guild.None? then Err(Error(NoPrivateMessage, NoPrivateMessageText))
    else Ok(RemovalNotice)
  }

  /** A whole `stats` invocation with its error handling: the messages sent and whether an error escapes. */
  function RunStats(invoked: Option<Subcommand>, guild: Option<nat>, support: string): (seq<string>, bool) {
    match Dispatch(invoked)
    case Update =>
      match ForceUpdate(guild, invoked.Some?)
      case Ok(notice) => ([notice], false)
      case Err(e) => var r := StatsReaction(e, support); ([r.reply.value], r.reraise)
  }

  /**
   * Bare `stats` (or an unknown subcommand) runs `stats update`, and does so
   * anywhere as `stats update` does in a guild; in a direct message the two
   * differ, because only the named subcommand passes its `guild_only` check.
   */
  lemma BareStatsIsUpdate(g: Option<nat>, x: nat, support: string)
    ensures RunStats(None, g, support) == RunStats(Some(Update), Some(x), support)
    ensures RunStats(None, None, support) != RunStats(Some(Update), None, support)
  {
    StatsRunSpec(None, g, support);
    StatsRunSpec(Some(Update), Some(x), support);
    StatsRunSpec(Some(Update), None, support);
    assert RemovalNotice != NoPrivateMessageText;
  }

  /**
   * Every stats run sends exactly one message and never re-raises: the
   * notice, except that `stats update` from a direct message is refused with
   * the NoPrivateMessage text, shown verbatim.
   */
  lemma StatsRunSpec(invoked: Option<Subcommand>, guild: Option<nat>, support: string)
    ensures |RunStats(invoked, guild, support).0| == 1
    ensures !RunStats(invoked, guild, support).1
    ensures RunStats(invoked, guild, support).0 ==
              if invoked == Some(Update) && guild.None? then ["This command cannot be used in private messages."]
              else [RemovalNotice]
  {
    if invoked.Some? && guild.None? {
      match invoked.value { case Update => }
      StatsReactionSpec(Error(NoPrivateMessage, NoPrivateMessageText), support);
    }
  }
}
