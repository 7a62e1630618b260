/**
 * The three-row March example: Alice on the 5th, Bob on the 1st, and Carl
 * whose birthday text does not parse.
 */
module Scenarios {
  import opened Wrappers
  import opened Text
  import opened Calendar
  import opened Records
  import opened Monthly
  import opened Digest
  import opened Daily

  function MarchRows(): seq<RawRecord> {
    [ RawRecord(Some("Alice"), Some("2020-03-05")),
      RawRecord(Some(" Bob "), Some("2020-03-01")),
      RawRecord(Some("Carl"), Some("not-a-date")) ]
  }

  /**
   * The parser reads the two dates as 5 March and 1 March and rejects the
   * third text. A date with no offset is read in the host's local zone
   * before conversion to Asia/Dhaka, so this holds on a host at or west of
   * UTC+6; on a host further east both dates fall on the previous day.
   */
  ghost predicate ParsesMarchRows(parse: Parser) {
    && parse("2020-03-05") == Some(MonthDay(3, 5))
    && parse("2020-03-01") == Some(MonthDay(3, 1))
    && parse("not-a-date") == None
  }

  lemma StripBob()
    ensures Strip(" Bob ") == "Bob"
  {
    var bob := " Bob ";
    assert IsSpace(bob[0]) && bob[1..] == "Bob ";
    assert StripStart(bob) == StripStart("Bob ");
    var bob' := "Bob ";
    assert !IsSpace(bob'[0]);
    assert StripStart(bob') == bob';
    assert IsSpace(bob'[3]) && bob'[..3] == "Bob";
    assert StripEnd(bob') == StripEnd("Bob");
    StripTrimmed("Bob");
  }

  lemma NormalizedAlice(parse: Parser)
    requires ParsesMarchRows(parse)
    ensures Normalize(MarchRows()[0], parse) == Valid(Person("Alice", MonthDay(3, 5)))
  {
    StripTrimmed("Alice");
    StripTrimmed("2020-03-05");
  }

  lemma NormalizedBob(parse: Parser)
    requires ParsesMarchRows(parse)
    ensures Normalize(MarchRows()[1], parse) == Valid(Person("Bob", MonthDay(3, 1)))
  {
    StripBob();
    StripTrimmed("2020-03-01");
  }

  lemma NormalizedCarl(parse: Parser)
    requires ParsesMarchRows(parse)
    ensures Normalize(MarchRows()[2], parse).Unparseable?
  {
    StripTrimmed("Carl");
    StripTrimmed("not-a-date");
  }

  /** The March example for any three rows that normalise like Alice's, Bob's and Carl's. */
  lemma MarchListOf(alice: RawRecord, bob: RawRecord, carl: RawRecord, parse: Parser)
    requires Normalize(alice, parse) == Valid(Person("Alice", MonthDay(3, 5)))
    requires Normalize(bob, parse) == Valid(Person("Bob", MonthDay(3, 1)))
    requires Normalize(carl, parse).Unparseable?
    ensures MonthlyBirthdays([alice, bob, carl], 3, parse) == [Entry("Bob", 1, 3), Entry("Alice", 5, 3)]
  {
    var rows := [alice, bob, carl];
    var a, b := Entry("Alice", 5, 3), Entry("Bob", 1, 3);
    assert Candidates([alice], 3, parse) == [a] by {
      CandidatesOne(alice, 3, parse);
    }
    assert Candidates([bob], 3, parse) == [b] by {
      CandidatesOne(bob, 3, parse);
    }
    assert Candidates([carl], 3, parse) == [] by {
      CandidatesOne(carl, 3, parse);
    }
    assert Candidates(rows, 3, parse) == [a, b] by {
      assert rows == [alice] + [bob] + [carl];
      CandidatesAppend([alice], [bob], 3, parse);
      CandidatesAppend([alice] + [bob], [carl], 3, parse);
    }
    SortAliceBob(a, b);
  }

  lemma SortAliceBob(a: Entry, b: Entry)
    requires a == Entry("Alice", 5, 3) && b == Entry("Bob", 1, 3)
    ensures StableSortByDay([a, b]) == [b, a]
  {
    var c := [a, b];
    assert StableSortByDay(c[..1]) == [a] by {
      assert c[..1] == [a] && c[..1][..0] == [];
    }
    assert c[..|c| - 1] == c[..1];
    assert StableSortByDay(c) == Insert([a], b);
  }

  /** March's list is Bob then Alice (by day, Bob's name stripped); Carl is skipped. */
  lemma MarchList(parse: Parser)
    requires ParsesMarchRows(parse)
    ensures MonthlyBirthdays(MarchRows(), 3, parse) == [Entry("Bob", 1, 3), Entry("Alice", 5, 3)]
  {
    var rows := MarchRows();
    NormalizedAlice(parse);
    NormalizedBob(parse);
    NormalizedCarl(parse);
    MarchListOf(rows[0], rows[1], rows[2], parse);
    assert rows == [rows[0], rows[1], rows[2]];
  }

  /** The March 5 example for any three rows that normalise like Alice's, Bob's and Carl's. */
  lemma MarchFifthOf(alice: RawRecord, bob: RawRecord, carl: RawRecord, parse: Parser)
    requires Normalize(alice, parse) == Valid(Person("Alice", MonthDay(3, 5)))
    requires Normalize(bob, parse) == Valid(Person("Bob", MonthDay(3, 1)))
    requires Normalize(carl, parse).Unparseable?
    ensures DailyGreetings([alice, bob, carl], MonthDay(3, 5), parse) == [Greeting("Alice")]
  {
    var today := MonthDay(3, 5);
    assert Celebrants([alice], today, parse) == ["Alice"] by {
      BirthdayTodayIff(alice, today, parse, "Alice");
      CelebrantsOne(alice, today, parse);
    }
    assert Celebrants([bob], today, parse) == [] by {
      FormatMonthDayInjective(MonthDay(3, 1), today);
      CelebrantsOne(bob, today, parse);
    }
    assert Celebrants([carl], today, parse) == [] by {
      CelebrantsOne(carl, today, parse);
    }
    assert Celebrants([alice, bob, carl], today, parse) == ["Alice"] by {
      assert [alice, bob, carl] == [alice] + [bob] + [carl];
      CelebrantsAppend([alice], [bob], today, parse);
      CelebrantsAppend([alice] + [bob], [carl], today, parse);
    }
  }

  /** On March 5 exactly one greeting goes out, to Alice. */
  lemma MarchFifth(parse: Parser)
    requires ParsesMarchRows(parse)
    ensures DailyGreetings(MarchRows(), MonthDay(3, 5), parse) == [Greeting("Alice")]
  {
    var rows := MarchRows();
    NormalizedAlice(parse);
    NormalizedBob(parse);
    NormalizedCarl(parse);
    MarchFifthOf(rows[0], rows[1], rows[2], parse);
    assert rows == [rows[0], rows[1], rows[2]];
  }

  /** With no rows the digest is the fixed text and the daily check sends nothing. */
  lemma EmptySource(month: Month, today: MonthDay, parse: Parser)
    ensures DigestText(MonthlyBirthdays([], month, parse), month) == NoBirthdaysMessage
    ensures DailyGreetings([], today, parse) == []
  {
  }
}
