/**
 * The chat the bot posts to. Only what the bot observes of `send_message`
 * is kept: the text of each attempt, in order, and whether it went through
 * (a failure is the exception the bot catches).
 */
module Messaging {

  datatype Attempt = Attempt(text: string, delivered: bool)

  /** The texts of a run of attempts, in order. */
  function Texts(log: seq<Attempt>): (r: seq<string>)
    ensures |r| == |log|
    ensures forall k :: 0 <= k < |log| ==> r[k] == log[k].text
  {
    if log == [] then [] else Texts(log[..|log| - 1]) + [log[|log| - 1].text]
  }

  predicate AnyDelivered(log: seq<Attempt>) {
    exists k :: 0 <= k < |log| && log[k].delivered
  }

  /**
   * One more attempt extends the run that started at `start` by that
   * attempt: its text comes last, and the run has a delivery exactly when
   * it had one before or this attempt was delivered.
   */
  lemma AttemptAppended(log: seq<Attempt>, a: Attempt, start: nat)
    requires start <= |log|
    ensures (log + [a])[..start] == log[..start]
    ensures Texts((log + [a])[start..]) == Texts(log[start..]) + [a.text]
    ensures AnyDelivered((log + [a])[start..]) <==> AnyDelivered(log[start..]) || a.delivered
  {
    var run := (log + [a])[start..];
    assert run == log[start..] + [a];
    assert run[..|run| - 1] == log[start..];
    if a.delivered {
      assert run[|run| - 1].delivered;
    }
  }

  /** The bot's outbound channel to its one group chat. */
  class Outbox {
    var attempts: seq<Attempt>

    constructor ()
      ensures attempts == []
    {
      attempts := [];
    }

    /**
     * Posting `text` to the group chat. Whether the
     * Telegram call succeeds is outside the bot's control, so the outcome is
     * left open; either way the attempt is recorded.
     */
    method SendMessage(text: string) returns (delivered: bool)
      modifies this
      ensures attempts == old(attempts) + [Attempt(text, delivered)]
    {
      delivered := *;
      attempts := attempts + [Attempt(text, delivered)];
    }
  }
}
