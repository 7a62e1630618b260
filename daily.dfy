/**
 * `check_daily_birthdays`: greet, one message each and in row order, every
 * row whose birthday (`%m-%d` in Asia/Dhaka) is today.
 */
module Daily {
  import opened Wrappers
  import opened Text
  import opened Calendar
  import opened Records
  import opened Messaging

  const GreetingPrefix: string := "🎂 <b>Happy Birthday, "
  const GreetingSuffix: string := "!</b> 🎉\n\nWishing you a fantastic day! 🥳"

  /** The birthday message for `name`. */
  function Greeting(name: string): string {
    GreetingPrefix + name + GreetingSuffix
  }

  /** The stripped name of a row whose `%m-%d` equals today's, if it does. */
  function BirthdayToday(r: RawRecord, today: MonthDay, parse: Parser): Option<string> {
    match Normalize(r, parse)
    case Valid(p) => if FormatMonthDay(p.date) == FormatMonthDay(today) then Some(p.name) else None
    case _ => None
  }

  /** The stripped names of the rows whose birthday is today, in row order. */
  function Celebrants(rs: seq<RawRecord>, today: MonthDay, parse: Parser): seq<string> {
    if rs == [] then []
    else
      Celebrants(rs[..|rs| - 1], today, parse)
      + match BirthdayToday(rs[|rs| - 1], today, parse)
        case Some(name) => [name]
        case None => []
  }

  /** The greeting of each name, in order. */
  function Greetings(names: seq<string>): (r: seq<string>)
    ensures |r| == |names|
  {
    seq(|names|, k requires 0 <= k < |names| => Greeting(names[k]))
  }

  /** The texts the daily check sends, in row order. */
  function DailyGreetings(rs: seq<RawRecord>, today: MonthDay, parse: Parser): seq<string> {
    Greetings(Celebrants(rs, today, parse))
  }

  /**
   * Comparing `%m-%d` strings picks exactly the rows that are kept by
   * normalisation and whose month and day are today's.
   */
  lemma BirthdayTodayIff(r: RawRecord, today: MonthDay, parse: Parser, name: string)
    ensures BirthdayToday(r, today, parse) == Some(name)
        <==> Normalize(r, parse) == Valid(Person(name, today))
  {
    match Normalize(r, parse)
    case Valid(p) => FormatMonthDayInjective(p.date, today);
    case _ =>
  }

  /** A greeting names its recipient, and different names get different greetings. */
  lemma GreetingNamesRecipient(a: string, b: string)
    ensures Greeting(a)[|GreetingPrefix|..|GreetingPrefix| + |a|] == a
    ensures Greeting(a) == Greeting(b) <==> a == b
  {
    if Greeting(a) == Greeting(b) {
      assert |a| == |b|;
      assert a == Greeting(a)[|GreetingPrefix|..|GreetingPrefix| + |a|];
    }
  }

  /** The check handles rows independently: a batch's celebrants are its halves' celebrants joined. */
  lemma {:induction false} CelebrantsAppend(a: seq<RawRecord>, b: seq<RawRecord>, today: MonthDay, parse: Parser)
    ensures Celebrants(a + b, today, parse) == Celebrants(a, today, parse) + Celebrants(b, today, parse)
    decreases |b|
  {
    if b == [] {
      assert a + b == a;
    } else {
      var b' := b[..|b| - 1];
      assert (a + b)[..|a + b| - 1] == a + b';
      assert (a + b)[|a + b| - 1] == b[|b| - 1];
      CelebrantsAppend(a, b', today, parse);
    }
  }

  lemma CelebrantsOne(r: RawRecord, today: MonthDay, parse: Parser)
    ensures Celebrants([r], today, parse)
         == match BirthdayToday(r, today, parse)
            case Some(name) => [name]
            case None => []
  {
    assert [r][..0] == [];
  }

  /**
   * A row whose birthday is today is greeted exactly once, by its stripped
   * name, after the rows before it and before the rows after it.
   */
  lemma GreetingAt(rs: seq<RawRecord>, i: nat, today: MonthDay, parse: Parser, name: string)
    requires i < |rs| && BirthdayToday(rs[i], today, parse) == Some(name)
    ensures Celebrants(rs, today, parse)
         == Celebrants(rs[..i], today, parse) + [name] + Celebrants(rs[i + 1..], today, parse)
  {
    var pre, r, post := rs[..i], rs[i], rs[i + 1..];
    assert rs == pre + [r] + post;
    CelebrantsAppend(pre + [r], post, today, parse);
    CelebrantsAppend(pre, [r], today, parse);
    CelebrantsOne(r, today, parse);
  }

  /**
   * A row that is blank, does not parse or is not today's birthday sends
   * nothing, and the rows after it are still checked as if it were absent.
   */
  lemma SkippedRow(pre: seq<RawRecord>, r: RawRecord, post: seq<RawRecord>, today: MonthDay, parse: Parser)
    requires BirthdayToday(r, today, parse) == None
    ensures DailyGreetings(pre + [r] + post, today, parse) == DailyGreetings(pre + post, today, parse)
  {
    var before := Celebrants(pre, today, parse);
    var after := Celebrants(post, today, parse);
    CelebrantsAppend(pre + [r], post, today, parse);
    CelebrantsAppend(pre, [r], today, parse);
    CelebrantsAppend(pre, post, today, parse);
    CelebrantsOne(r, today, parse);
    assert Celebrants(pre + [r], today, parse) == before;
    assert Celebrants(pre + [r] + post, today, parse) == before + after;
  }

  /** A name is greeted exactly when some row with that stripped name has its birthday today. */
  lemma {:induction false} CelebrantsMembership(rs: seq<RawRecord>, today: MonthDay, parse: Parser, name: string)
    ensures name in Celebrants(rs, today, parse)
        <==> exists i :: 0 <= i < |rs| && BirthdayToday(rs[i], today, parse) == Some(name)
  {
    if rs != [] {
      var rs' := rs[..|rs| - 1];
      CelebrantsMembership(rs', today, parse, name);
      if name in Celebrants(rs', today, parse) {
        var i :| 0 <= i < |rs'| && BirthdayToday(rs'[i], today, parse) == Some(name);
        assert rs[i] == rs'[i];
      }
      if exists i :: 0 <= i < |rs| && BirthdayToday(rs[i], today, parse) == Some(name) {
        var i :| 0 <= i < |rs| && BirthdayToday(rs[i], today, parse) == Some(name);
        if i < |rs| - 1 {
          assert rs'[i] == rs[i];
        }
      }
    }
  }

  lemma DailyGreetingsStep(rs: seq<RawRecord>, i: nat, today: MonthDay, parse: Parser)
    requires i < |rs|
    ensures DailyGreetings(rs[..i + 1], today, parse)
         == DailyGreetings(rs[..i], today, parse)
            + match BirthdayToday(rs[i], today, parse)
              case Some(name) => [Greeting(name)]
              case None => []
  {
    assert rs[..i + 1][..i] == rs[..i];
    var c := Celebrants(rs[..i], today, parse);
    match BirthdayToday(rs[i], today, parse)
    case Some(name) =>
      assert Celebrants(rs[..i + 1], today, parse) == c + [name];
      assert Greetings(c + [name]) == Greetings(c) + [Greeting(name)];
    case None =>
  }

  /**
   * `check_daily_birthdays` on the already fetched rows, with today's date
   * passed in. Every greeting is attempted, whatever became of the earlier
   * ones; `found` ends true exactly when at least one of them was delivered.
   */
  method CheckDailyBirthdays(records: seq<RawRecord>, today: MonthDay, parse: Parser, bot: Outbox)
    returns (found: bool)
    modifies bot
    ensures |bot.attempts| >= |old(bot.attempts)|
    ensures bot.attempts[..|old(bot.attempts)|] == old(bot.attempts)
    ensures Texts(bot.attempts[|old(bot.attempts)|..]) == DailyGreetings(records, today, parse)
    ensures found <==> AnyDelivered(bot.attempts[|old(bot.attempts)|..])
  {
    var todayText := FormatMonthDay(today);
    ghost var start := |bot.attempts|;
    found := false;
    for i := 0 to |records|
      invariant |bot.attempts| >= start
      invariant bot.attempts[..start] == old(bot.attempts)
      invariant Texts(bot.attempts[start..]) == DailyGreetings(records[..i], today, parse)
      invariant found <==> AnyDelivered(bot.attempts[start..])
    {
      var b := records[i];
      DailyGreetingsStep(records, i, today, parse);
      var name := Strip(Field(b.name));
      var rawBirthday := Strip(Field(b.birthday));
      if name == [] || rawBirthday == [] {
        continue;
      }
      var dt := parse(rawBirthday);
      if dt.None? {
        continue;
      }
      var bday := FormatMonthDay(dt.value);
      if bday == todayText {
        ghost var before := bot.attempts;
        var text := Greeting(name);
        var delivered := bot.SendMessage(text);
        AttemptAppended(before, Attempt(text, delivered), start);
        if delivered {
          found := true;
        }
      }
    }
    assert records[..|records|] == records;
  }
}
