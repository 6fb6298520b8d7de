/**
 * The confirmation decision of the delete command (cogs/messages.py):
 * which arriving message counts as the answer (`is_correct`) and which
 * answer confirms (`choice.content.lower() == 'yes'`).
 */
module Confirmation {
  import opened Wrappers
  import opened Chat

  /** `is_correct`: the author matches the invoker; the channel is not looked at. */
  predicate IsCorrect(m: Reply, author: UserId) {
    m.author == author
  }

  /** `bot.wait_for('message', check=is_correct)`: the first arriving message that passes the check; None is the timeout. */
  function WaitFor(incoming: seq<Reply>, author: UserId): (r: Option<Reply>)
    ensures r.Some? ==> r.value in incoming && IsCorrect(r.value, author)
    ensures r.None? <==> forall m :: m in incoming ==> !IsCorrect(m, author)
  {
    if incoming == [] then None
    else if IsCorrect(incoming[0], author) then Some(incoming[0])
    else WaitFor(incoming[1..], author)
  }

  /** The answer picked is the first qualifying one: every message before it has another author. */
  lemma {:induction false} WaitForFirst(incoming: seq<Reply>, author: UserId)
    requires WaitFor(incoming, author).Some?
    ensures exists i :: 0 <= i < |incoming| && incoming[i] == WaitFor(incoming, author).value &&
                        forall j :: 0 <= j < i ==> !IsCorrect(incoming[j], author)
  {
    if !IsCorrect(incoming[0], author) {
      WaitForFirst(incoming[1..], author);
      var i :| 0 <= i < |incoming[1..]| && incoming[1..][i] == WaitFor(incoming[1..], author).value &&
               forall j :: 0 <= j < i ==> !IsCorrect(incoming[1..][j], author);
      assert incoming[i + 1] == WaitFor(incoming, author).value;
      forall j | 0 <= j < i + 1 ensures !IsCorrect(incoming[j], author) {
        if j > 0 { assert incoming[j] == incoming[1..][j - 1]; }
      }
    }
  }

  /** Python's `str.lower()` on the ASCII letters. */
  function LowerChar(c: char): char {
    if 'A' <= c <= 'Z' then (c as int + 32) as char else c
  }

  /**
   * Lower-casing keeps the length, leaves no upper-case ASCII letter behind,
   * changes only upper-case letters, and turns each into its own lower-case form.
   */
  function Lower(s: string): (r: string)
    ensures |r| == |s|
    ensures forall i :: 0 <= i < |r| ==> !('A' <= r[i] <= 'Z')
    ensures forall i :: 0 <= i < |s| && !('A' <= s[i] <= 'Z') ==> r[i] == s[i]
    ensures forall i :: 0 <= i < |s| ==> Folds(s[i], r[i])
  {
    seq(|s|, i requires 0 <= i < |s| => LowerChar(s[i]))
  }

  /** Lower-casing twice is lower-casing once. */
  lemma LowerIdempotent(s: string)
    ensures Lower(Lower(s)) == Lower(s)
  {
  }

  /** `choice.content.lower() == 'yes'`, with no trimming. */
  predicate IsYes(content: string) {
    Lower(content) == "yes"
  }

  /** `l` is `c` or its upper-case form. */
  predicate Folds(c: char, l: char) {
    c == l || c as int == l as int - 32
  }

  /** Exactly three characters, each y/Y, e/E, s/S in turn, confirm; nothing around them is ignored. */
  lemma IsYesIff(s: string)
    ensures IsYes(s) <==> |s| == 3 && Folds(s[0], 'y') && Folds(s[1], 'e') && Folds(s[2], 's')
  {
  }

  /** Case never matters; surrounding space always does. */
  lemma YesExamples()
    ensures IsYes("yes") && IsYes("YES") && IsYes("yEs")
    ensures !IsYes(" yes") && !IsYes("yes ") && !IsYes("y") && !IsYes("no")
  {
  }

  /** A message from the invoker counts whatever channel it is posted in; nothing from anyone else ever does. */
  lemma AnswerFromAnyChannel(author: UserId, other: UserId, ch: ChannelId, text: string)
    requires other != author
    ensures WaitFor([Reply(other, ch, "yes"), Reply(author, ch + 1, text)], author) == Some(Reply(author, ch + 1, text))
    ensures WaitFor([Reply(other, ch, "yes")], author) == None
  {
  }
}
