/**
 * The exception classes that the two cogs tell apart. In the bot they are
 * Python exception classes (`bot.errors.*`, `commands.NoPrivateMessage`,
 * `asyncio.TimeoutError`, `discord.errors.Forbidden`); here an exception is a
 * tag naming its class together with the text `str(error)` would produce.
 */
module Errors {
  import opened Wrappers

  datatype ErrorKind =
    | MissingPermission
    | ContentError
    | DifferentServer
    | ConfigNotSet
    | NoPrivateMessage
    | Timeout      // asyncio.TimeoutError
    | Forbidden    // discord.errors.Forbidden, raised by the transport
    | Other        // any exception class neither cog lists

  datatype Error = Error(kind: ErrorKind, text: string)

  /** What a resolution step produced: a value, or the exception it raised. */
  datatype Result<+T> = Ok(value: T) | Err(error: Error)

  /** What an error handler does: the one message it sends, if any, and whether it re-raises. */
  datatype Reaction = Reaction(reply: Option<string>, reraise: bool)
}
