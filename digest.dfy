/**
 * `send_monthly_birthday_list`: turn the monthly list into one message and
 * post it once.
 */
module Digest {
  import opened Text
  import opened Calendar
  import opened Records
  import opened Monthly
  import opened Messaging

  const NoBirthdaysMessage: string := "📅 There are no birthdays this month."
  const Closing: string := "\nLet's celebrate together! 🎂🎉"

  function Header(month: Month): string {
    "🎉 <b>Birthdays in " + MonthName(month) + "</b>:\n\n"
  }

  /** One bullet: the name, then the day and month name in italics. */
  function BulletLine(e: Entry): string {
    "• " + e.name + " - <i>" + DecimalText(e.day) + " " + MonthName(e.month) + "</i>\n"
  }

  /** The bullet of each entry, in list order. */
  function Bullets(entries: seq<Entry>): (r: seq<string>)
    ensures |r| == |entries|
  {
    seq(|entries|, k requires 0 <= k < |entries| => BulletLine(entries[k]))
  }

  function BulletLines(entries: seq<Entry>): string {
    Join(Bullets(entries))
  }

  /** The message posted for the monthly list `entries`, headed by `month`. */
  function DigestText(entries: seq<Entry>, month: Month): string {
    if entries == [] then NoBirthdaysMessage else Header(month) + BulletLines(entries) + Closing
  }

  /**
   * Every entry gets exactly its own bullet, at its place in list order:
   * the bullets of the entries before it, then its line, then the bullets
   * of the entries after it.
   */
  lemma BulletLinesAt(entries: seq<Entry>, k: nat)
    requires k < |entries|
    ensures BulletLines(entries)
         == BulletLines(entries[..k]) + BulletLine(entries[k]) + BulletLines(entries[k + 1..])
  {
    var bs := Bullets(entries);
    assert bs == Bullets(entries[..k]) + [BulletLine(entries[k])] + Bullets(entries[k + 1..]);
    JoinAppend(Bullets(entries[..k]) + [BulletLine(entries[k])], Bullets(entries[k + 1..]));
    JoinAppend(Bullets(entries[..k]), [BulletLine(entries[k])]);
    assert [BulletLine(entries[k])][..0] == [];
  }

  /**
   * The fixed "no birthdays" text is sent exactly when the list is empty;
   * otherwise the message is the header naming `month`, the bullets and the
   * closing line.
   */
  lemma DigestShape(entries: seq<Entry>, month: Month)
    ensures DigestText(entries, month) == NoBirthdaysMessage <==> entries == []
    ensures entries != [] ==>
      var m := DigestText(entries, month);
      var h := Header(month);
      && |m| >= |h| + |Closing|
      && m[..|h|] == h
      && m[|h|..|m| - |Closing|] == BulletLines(entries)
      && m[|m| - |Closing|..] == Closing
  {
    if entries != [] {
      var m := DigestText(entries, month);
      assert m[0] == '🎉' != NoBirthdaysMessage[0];
    }
  }

  lemma BulletLinesStep(entries: seq<Entry>, i: nat)
    requires i < |entries|
    ensures BulletLines(entries[..i + 1]) == BulletLines(entries[..i]) + BulletLine(entries[i])
  {
    assert Bullets(entries[..i + 1]) == Bullets(entries[..i]) + [BulletLine(entries[i])];
  }

  /**
   * Regrouping a concatenation. Proved apart so that the loop below does not
   * have to reason about sequence extensionality in its own context.
   */
  lemma Associative(a: string, b: string, c: string)
    ensures (a + b) + c == a + (b + c)
  {
  }

  /** The `message += ...` loop: one bullet per entry, appended in list order. */
  method AppendBullets(prefix: string, entries: seq<Entry>) returns (message: string)
    ensures message == prefix + BulletLines(entries)
  {
    message := prefix;
    assert Bullets(entries[..0]) == [];
    for i := 0 to |entries|
      invariant message == prefix + BulletLines(entries[..i])
    {
      var line := BulletLine(entries[i]);
      assert message + line == prefix + BulletLines(entries[..i + 1]) by {
        BulletLinesStep(entries, i);
        Associative(prefix, BulletLines(entries[..i]), line);
      }
      message := message + line;
    }
    assert entries[..|entries|] == entries;
  }

  /** The message `send_monthly_birthday_list` builds. */
  method BuildDigest(entries: seq<Entry>, month: Month) returns (message: string)
    ensures message == DigestText(entries, month)
  {
    if entries == [] {
      message := NoBirthdaysMessage;
    } else {
      message := AppendBullets(Header(month), entries);
      message := message + Closing;
    }
  }

  /**
   * `send_monthly_birthday_list` on the already fetched rows. The source
   * reads the clock twice: once inside the selection (`selectionMonth`) and
   * once for the header (`headerMonth`). Exactly one message is attempted,
   * and a failed send is absorbed.
   */
  method SendMonthlyBirthdayList(
    records: seq<RawRecord>, selectionMonth: Month, headerMonth: Month, parse: Parser, bot: Outbox)
    modifies bot
    ensures |bot.attempts| == |old(bot.attempts)| + 1
    ensures bot.attempts[..|old(bot.attempts)|] == old(bot.attempts)
    ensures bot.attempts[|old(bot.attempts)|].text
         == DigestText(MonthlyBirthdays(records, selectionMonth, parse), headerMonth)
  {
    var monthly := GetMonthlyBirthdays(records, selectionMonth, parse);
    var message := BuildDigest(monthly, headerMonth);
    var _ := bot.SendMessage(message);
  }
}
