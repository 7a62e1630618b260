/**
 * `get_monthly_birthdays`: keep the rows whose birthday falls in the
 * current month, as `{name, day, month}` entries, and sort them by day with
 * a stable sort.
 */
module Monthly {
  import opened Wrappers
  import opened Text
  import opened Calendar
  import opened Records

  /** One `{name, day, month}` dictionary of the monthly list. */
  datatype Entry = Entry(name: string, day: Day, month: Month)

  /** The entry a row contributes for `currentMonth`, if any. */
  function EntryOf(r: RawRecord, currentMonth: Month, parse: Parser): Option<Entry> {
    match Normalize(r, parse)
    case Valid(p) =>
      if p.date.month == currentMonth then Some(Entry(p.name, p.date.day, p.date.month)) else None
    case _ => None
  }

  /** The entries the loop appends, in row order, before sorting. */
  function Candidates(rs: seq<RawRecord>, currentMonth: Month, parse: Parser): seq<Entry> {
    if rs == [] then []
    else
      Candidates(rs[..|rs| - 1], currentMonth, parse)
      + match EntryOf(rs[|rs| - 1], currentMonth, parse)
        case Some(e) => [e]
        case None => []
  }

  predicate SortedByDay(s: seq<Entry>) {
    forall i, j :: 0 <= i < j < |s| ==> s[i].day <= s[j].day
  }

  /** The entries of `s` that fall on day `d`, in their order in `s`. */
  function OnDay(s: seq<Entry>, d: Day): seq<Entry> {
    if s == [] then [] else (if s[0].day == d then [s[0]] else []) + OnDay(s[1..], d)
  }

  /** Inserts `x` after every entry whose day is not later than its own. */
  function Insert(s: seq<Entry>, x: Entry): seq<Entry> {
    if s == [] || x.day < s[0].day then [x] + s else [s[0]] + Insert(s[1..], x)
  }

  /** The stable sort by day: insert the entries one by one, in order. */
  function StableSortByDay(s: seq<Entry>): seq<Entry> {
    if s == [] then [] else Insert(StableSortByDay(s[..|s| - 1]), s[|s| - 1])
  }

  /** What `get_monthly_birthdays` returns. */
  function MonthlyBirthdays(rs: seq<RawRecord>, currentMonth: Month, parse: Parser): seq<Entry> {
    StableSortByDay(Candidates(rs, currentMonth, parse))
  }

  // ----- the filter -----

  /** The loop handles the rows independently: one batch is the two halves' results joined. */
  lemma {:induction false} CandidatesAppend(a: seq<RawRecord>, b: seq<RawRecord>, m: Month, parse: Parser)
    ensures Candidates(a + b, m, parse) == Candidates(a, m, parse) + Candidates(b, m, parse)
    decreases |b|
  {
    if b == [] {
      assert a + b == a;
    } else {
      var b' := b[..|b| - 1];
      assert (a + b)[..|a + b| - 1] == a + b';
      assert (a + b)[|a + b| - 1] == b[|b| - 1];
      CandidatesAppend(a, b', m, parse);
    }
  }

  /**
   * An entry is selected exactly when some row normalises to it in the
   * current month: its name is that row's stripped name and its month is
   * the current month.
   */
  lemma {:induction false} CandidatesMembership(rs: seq<RawRecord>, m: Month, parse: Parser, e: Entry)
    ensures e in Candidates(rs, m, parse) <==> exists i :: 0 <= i < |rs| && EntryOf(rs[i], m, parse) == Some(e)
  {
    if rs != [] {
      var rs' := rs[..|rs| - 1];
      CandidatesMembership(rs', m, parse, e);
      if e in Candidates(rs', m, parse) {
        var i :| 0 <= i < |rs'| && EntryOf(rs'[i], m, parse) == Some(e);
        assert rs[i] == rs'[i];
      }
      if exists i :: 0 <= i < |rs| && EntryOf(rs[i], m, parse) == Some(e) {
        var i :| 0 <= i < |rs| && EntryOf(rs[i], m, parse) == Some(e);
        if i < |rs| - 1 {
          assert rs'[i] == rs[i];
        }
      }
    }
  }

  /** What a selected entry holds: a stripped, non-blank name and the current month. */
  lemma EntryOfSpec(r: RawRecord, m: Month, parse: Parser, e: Entry)
    requires EntryOf(r, m, parse) == Some(e)
    ensures e.month == m
    ensures e.name == Strip(Field(r.name)) && e.name != []
    ensures Some(MonthDay(e.month, e.day)) == parse(Strip(Field(r.birthday)))
  {
  }

  /**
   * A row that is blank, fails to parse or lies in another month is simply
   * skipped: taking it out of the batch changes nothing, and the rows after
   * it are processed as if it were not there.
   */
  lemma SkippedRow(pre: seq<RawRecord>, r: RawRecord, post: seq<RawRecord>, m: Month, parse: Parser)
    requires EntryOf(r, m, parse) == None
    ensures MonthlyBirthdays(pre + [r] + post, m, parse) == MonthlyBirthdays(pre + post, m, parse)
  {
    var before := Candidates(pre, m, parse);
    var after := Candidates(post, m, parse);
    CandidatesAppend(pre + [r], post, m, parse);
    CandidatesAppend(pre, [r], m, parse);
    CandidatesAppend(pre, post, m, parse);
    CandidatesOne(r, m, parse);
    assert Candidates(pre + [r], m, parse) == before;
    assert Candidates(pre + [r] + post, m, parse) == before + after;
  }

  lemma CandidatesOne(r: RawRecord, m: Month, parse: Parser)
    ensures Candidates([r], m, parse)
         == match EntryOf(r, m, parse)
            case Some(e) => [e]
            case None => []
  {
    assert [r][..0] == [];
  }

  // ----- the sort -----

  lemma {:induction false} OnDayAppend(a: seq<Entry>, b: seq<Entry>, d: Day)
    ensures OnDay(a + b, d) == OnDay(a, d) + OnDay(b, d)
  {
    if a == [] {
      assert a + b == b;
    } else {
      var head := if a[0].day == d then [a[0]] else [];
      assert (a + b)[0] == a[0];
      assert (a + b)[1..] == a[1..] + b;
      assert OnDay(a + b, d) == head + OnDay(a[1..] + b, d);
      assert OnDay(a[1..] + b, d) == OnDay(a[1..], d) + OnDay(b, d) by {
        OnDayAppend(a[1..], b, d);
      }
      assert OnDay(a, d) == head + OnDay(a[1..], d);
    }
  }

  lemma {:induction false} OnDayNone(s: seq<Entry>, d: Day)
    requires forall k :: 0 <= k < |s| ==> s[k].day != d
    ensures OnDay(s, d) == []
  {
    if s != [] {
      OnDayNone(s[1..], d);
    }
  }

  /** Every entry of `Insert(s, x)` is `x` or an entry of `s`. */
  lemma {:induction false} InsertMembers(s: seq<Entry>, x: Entry)
    ensures multiset(Insert(s, x)) == multiset(s) + multiset{x}
  {
    if s != [] && x.day >= s[0].day {
      InsertMembers(s[1..], x);
      assert s == [s[0]] + s[1..];
    }
  }

  /** A lower bound on the days of `s` and of `x` bounds the days of `Insert(s, x)`. */
  lemma {:induction false} InsertLowerBound(s: seq<Entry>, x: Entry, lo: int)
    requires forall k :: 0 <= k < |s| ==> lo <= s[k].day
    requires lo <= x.day
    ensures forall k :: 0 <= k < |Insert(s, x)| ==> lo <= Insert(s, x)[k].day
  {
    if s != [] && x.day >= s[0].day {
      InsertLowerBound(s[1..], x, lo);
    }
  }

  lemma {:induction false} InsertSorted(s: seq<Entry>, x: Entry)
    requires SortedByDay(s)
    ensures SortedByDay(Insert(s, x))
  {
    if s != [] && x.day >= s[0].day {
      var t := Insert(s[1..], x);
      InsertSorted(s[1..], x);
      InsertLowerBound(s[1..], x, s[0].day);
      assert Insert(s, x) == [s[0]] + t;
    }
  }

  lemma {:induction false} InsertOnDay(s: seq<Entry>, x: Entry, d: Day)
    requires SortedByDay(s)
    ensures OnDay(Insert(s, x), d) == OnDay(s, d) + (if x.day == d then [x] else [])
  {
    if s == [] {
    } else if x.day < s[0].day {
      assert ([x] + s)[1..] == s;
      if x.day == d {
        OnDayNone(s, d);
      }
    } else {
      InsertOnDay(s[1..], x, d);
      assert ([s[0]] + Insert(s[1..], x))[1..] == Insert(s[1..], x);
    }
  }

  /** Sorting one more entry inserts it into the sorted prefix. */
  lemma StableSortStep(s: seq<Entry>, i: nat)
    requires i < |s|
    ensures StableSortByDay(s[..i + 1]) == Insert(StableSortByDay(s[..i]), s[i])
  {
    assert s[..i + 1][..i] == s[..i];
  }

  /** The stable sort yields a list sorted by day, holding the same entries. */
  lemma {:induction false} StableSortSorted(s: seq<Entry>)
    ensures SortedByDay(StableSortByDay(s))
    ensures multiset(StableSortByDay(s)) == multiset(s)
  {
    if s != [] {
      var s' := s[..|s| - 1];
      var x := s[|s| - 1];
      var sorted' := StableSortByDay(s');
      assert StableSortByDay(s) == Insert(sorted', x);
      assert SortedByDay(sorted') && multiset(sorted') == multiset(s') by {
        StableSortSorted(s');
      }
      assert SortedByDay(Insert(sorted', x)) by {
        InsertSorted(sorted', x);
      }
      assert multiset(Insert(sorted', x)) == multiset(s') + multiset{x} by {
        InsertMembers(sorted', x);
      }
      assert multiset(s) == multiset(s') + multiset{x} by {
        assert s == s' + [x];
      }
    }
  }

  /** Stability: entries that share a day keep their original relative order. */
  lemma {:induction false} StableSortKeepsOrder(s: seq<Entry>, d: Day)
    ensures OnDay(StableSortByDay(s), d) == OnDay(s, d)
  {
    if s != [] {
      var s' := s[..|s| - 1];
      var x := s[|s| - 1];
      var sorted' := StableSortByDay(s');
      var tail := if x.day == d then [x] else [];
      assert OnDay(sorted', d) == OnDay(s', d) by {
        StableSortKeepsOrder(s', d);
      }
      assert OnDay(Insert(sorted', x), d) == OnDay(sorted', d) + tail by {
        StableSortSorted(s');
        InsertOnDay(sorted', x, d);
      }
      assert OnDay(s' + [x], d) == OnDay(s', d) + tail by {
        OnDayAppend(s', [x], d);
        OnDaySingle(x, d);
      }
      assert StableSortByDay(s) == Insert(sorted', x);
      assert s' + [x] == s;
    }
  }

  lemma OnDaySingle(x: Entry, d: Day)
    ensures OnDay([x], d) == if x.day == d then [x] else []
  {
    assert [x][1..] == [];
  }

  lemma OnDayHead(s: seq<Entry>)
    requires s != []
    ensures OnDay(s, s[0].day) == [s[0]] + OnDay(s[1..], s[0].day)
  {
  }

  lemma OnDayOther(s: seq<Entry>, d: Day)
    requires s != [] && s[0].day != d
    ensures OnDay(s, d) == OnDay(s[1..], d)
  {
  }

  /**
   * A stable sort by day has only one possible result: any two lists sorted
   * by day whose same-day entries come in the same order are equal. So the
   * insertion sort here and Python's `list.sort` agree.
   */
  lemma {:induction false} StableSortUnique(a: seq<Entry>, b: seq<Entry>)
    requires SortedByDay(a) && SortedByDay(b)
    requires forall d: Day :: OnDay(a, d) == OnDay(b, d)
    ensures a == b
    decreases |a|
  {
    if a == [] {
      if b != [] {
        OnDayHead(b);
        assert false;
      }
    } else if b == [] {
      OnDayHead(a);
      assert false;
    } else {
      if a[0].day < b[0].day {
        OnDayHead(a);
        OnDayNone(b, a[0].day);
        assert false;
      } else if b[0].day < a[0].day {
        OnDayHead(b);
        OnDayNone(a, b[0].day);
        assert false;
      }
      var d0 := a[0].day;
      OnDayHead(a);
      OnDayHead(b);
      assert OnDay(a, d0) == OnDay(b, d0);
      assert a[0] == OnDay(a, d0)[0] == OnDay(b, d0)[0] == b[0];
      forall d: Day ensures OnDay(a[1..], d) == OnDay(b[1..], d) {
        if d != d0 {
          OnDayOther(a, d);
          OnDayOther(b, d);
          assert OnDay(a, d) == OnDay(b, d);
        } else {
          assert OnDay(a[1..], d) == OnDay(a, d)[1..];
          assert OnDay(b[1..], d) == OnDay(b, d)[1..];
        }
      }
      StableSortUnique(a[1..], b[1..]);
      assert a == [a[0]] + a[1..];
      assert b == [b[0]] + b[1..];
    }
  }

  /** Where stable insertion places `x` in a sorted list: after the entries not later than it. */
  lemma {:induction false} InsertAt(s: seq<Entry>, x: Entry, j: nat)
    requires j <= |s|
    requires forall k :: 0 <= k < j ==> s[k].day <= x.day
    requires forall k :: j <= k < |s| ==> s[k].day > x.day
    ensures Insert(s, x) == s[..j] + [x] + s[j..]
  {
    if j > 0 {
      InsertAt(s[1..], x, j - 1);
      assert s[..j] == [s[0]] + s[1..][..j - 1];
      assert s[j..] == s[1..][j - 1..];
    }
  }

  // ----- the methods -----

  /**
   * Where a stable insertion puts `x` into the sorted list `r`: just after
   * the last entry whose day is not later than `x`'s.
   */
  method InsertionPoint(r: seq<Entry>, x: Entry) returns (j: nat)
    requires SortedByDay(r)
    ensures j <= |r|
    ensures forall k :: 0 <= k < j ==> r[k].day <= x.day
    ensures forall k :: j <= k < |r| ==> r[k].day > x.day
  {
    j := |r|;
    while j > 0 && r[j - 1].day > x.day
      invariant 0 <= j <= |r|
      invariant forall k :: j <= k < |r| ==> r[k].day > x.day
    {
      j := j - 1;
    }
  }

  /** Python's stable in-place sort keyed on the day, as an insertion sort. */
  method SortByDay(s: seq<Entry>) returns (r: seq<Entry>)
    ensures r == StableSortByDay(s)
    ensures SortedByDay(r) && multiset(r) == multiset(s)
    ensures forall d: Day :: OnDay(r, d) == OnDay(s, d)
  {
    r := [];
    for i := 0 to |s|
      invariant r == StableSortByDay(s[..i])
    {
      StableSortSorted(s[..i]);
      var j := InsertionPoint(r, s[i]);
      InsertAt(r, s[i], j);
      StableSortStep(s, i);
      r := r[..j] + [s[i]] + r[j..];
    }
    assert s[..|s|] == s;
    StableSortSorted(s);
    forall d: Day ensures OnDay(r, d) == OnDay(s, d) {
      StableSortKeepsOrder(s, d);
    }
  }

  /**
   * `get_monthly_birthdays` on the already fetched rows, with the current
   * month passed in: strip, skip blank rows, parse (skipping rows that do
   * not parse), keep the current month, then sort stably by day.
   */
  method GetMonthlyBirthdays(records: seq<RawRecord>, currentMonth: Month, parse: Parser)
    returns (monthly: seq<Entry>)
    ensures monthly == MonthlyBirthdays(records, currentMonth, parse)
    ensures SortedByDay(monthly)
    ensures multiset(monthly) == multiset(Candidates(records, currentMonth, parse))
    ensures forall d: Day :: OnDay(monthly, d) == OnDay(Candidates(records, currentMonth, parse), d)
    ensures forall k :: 0 <= k < |monthly| ==> monthly[k].month == currentMonth && monthly[k].name != []
  {
    var kept: seq<Entry> := [];
    for i := 0 to |records|
      invariant kept == Candidates(records[..i], currentMonth, parse)
    {
      var b := records[i];
      assert records[..i + 1] == records[..i] + [b];
      var name := Strip(Field(b.name));
      var rawBirthday := Strip(Field(b.birthday));
      if name == [] || rawBirthday == [] {
        continue;
      }
      var dt := parse(rawBirthday);
      if dt.None? {
        continue;
      }
      if dt.value.month == currentMonth {
        kept := kept + [Entry(name, dt.value.day, dt.value.month)];
      }
    }
    assert records[..|records|] == records;
    monthly := SortByDay(kept);
    forall k | 0 <= k < |monthly| ensures monthly[k].month == currentMonth && monthly[k].name != [] {
      var e := monthly[k];
      assert e in multiset(kept);
      CandidatesMembership(records, currentMonth, parse, e);
      var i :| 0 <= i < |records| && EntryOf(records[i], currentMonth, parse) == Some(e);
      EntryOfSpec(records[i], currentMonth, parse, e);
    }
  }
}
