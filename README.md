# Birthday bot: monthly list and daily greetings

A Dafny model of the in-memory core of `BirthdayBot` (`main.py`), a Telegram
bot that reads a list of `{name, birthday}` rows from a spreadsheet and posts
to one group chat:

- **Monthly selection** (`get_monthly_birthdays`): strip each row's `name` and
  `birthday`, skip the row if either is empty, parse the birthday (a row that
  does not parse is skipped and the batch goes on), keep the rows in the
  current month as `{name, day, month}` entries and sort them stably by day.
- **Monthly digest** (`send_monthly_birthday_list`): the fixed "no birthdays"
  text for an empty list, otherwise a header naming the month, one bullet per
  entry in list order and a closing line; exactly one send is attempted.
- **Daily check** (`check_daily_birthdays`): the same normalisation, then one
  greeting per row whose `%m-%d` (in Asia/Dhaka) equals today's, in row order;
  a failed send is absorbed and `found` ends true exactly when some send was
  delivered.

Files and modules: `wrappers.dfy` (Option), `text.dfy` (`str.strip`, decimal
and two-digit rendering, joining), `calendar.dfy` (month, day, month names,
`%m-%d`), `records.dfy` (rows and their normalisation), `monthly.dfy`
(selection and stable sort), `digest.dfy` (digest text and monthly send),
`messaging.dfy` (the chat as a log of send attempts), `daily.dfy` (daily
check), `scenarios.dfy` (the three-row March example).

Outside collaborators become parameters: the ISO 8601 parse plus time-zone
conversion is a function `Parser = string -> Option<MonthDay>` (None when
`isoparse` raises), the clock is an explicit month or month-day, and the
Telegram bot is an `Outbox` object whose `SendMessage` records each attempt
with an outcome the model leaves open.

The operations are methods with loops mirroring the source (`for` over the
rows, `+=` over the entries), each proved against a specification function
(`MonthlyBirthdays`, `DigestText`, `DailyGreetings`) whose properties are
proved as lemmas.

## Model

| member | source | states |
|---|---|---|
| Text.IsSpace | main.py:55-56 | the characters `str.strip()` with no argument removes: Python's `isspace` set (ASCII whitespace, the separators 0x1C-0x1F, 0x85, no-break and other Unicode spaces, line and paragraph separators) |
| Text.StripStart | main.py:55-56 | `lstrip`: the text after its longest leading run of whitespace |
| Text.StripEnd | main.py:55-56 | `rstrip`: the text before its longest trailing run of whitespace |
| Text.Strip | main.py:55-56 | `str.strip()`: both runs removed, as applied to `name` and `birthday` at main.py:55-56 and 108-109 |
| Text.DecimalText | main.py:87 | how an f-string renders the day number: its decimal digits, with no leading zero; its contract says the text is non-empty, all digits and starts with a non-zero digit unless the number is 0 |
| Text.TwoDigits | main.py:116 | one zero-padded two-digit field of `strftime('%m-%d')` |
| Text.StripStartSpec | main.py:55-56 | `lstrip` keeps a suffix that starts with a non-space and removes only whitespace (Python's `isspace` set) before it |
| Text.StripEndSpec | main.py:55-56 | `rstrip` keeps a prefix that ends with a non-space and removes only whitespace after it |
| Text.StripSlice | main.py:55-56 | `strip` returns a contiguous piece of the text with only whitespace cut from each side |
| Text.StripBorders | main.py:55-56 | a stripped text neither starts nor ends with whitespace |
| Text.StripEmptyIff | main.py:55-58 | the stripped field is empty exactly when the field is all whitespace |
| Text.StripIdempotent | main.py:55-56 | stripping a stripped text changes nothing |
| Text.DecimalRoundTrip | main.py:87 | the day written in a bullet reads back as that day (decimal rendering loses nothing) |
| Text.TwoDigitsRoundTrip | main.py:100 | the zero-padded two-digit field of `%m-%d` reads back as its number |
| Calendar.MonthName | main.py:85-87 | `calendar.month_name` in the default (English) locale: "January" to "December"; its contract says each name is non-empty |
| Calendar.FormatMonthDay | main.py:116 | `strftime('%m-%d')`, as at main.py:100 for today and main.py:116 for a birthday: two-digit month, '-', two-digit day; its contract says the text is five characters with '-' in the middle |
| Calendar.FormatMonthDayRoundTrip | main.py:100 | month and day can be read back out of a `%m-%d` string |
| Calendar.FormatMonthDayInjective | main.py:116-121 | two dates have equal `%m-%d` strings exactly when month and day are equal |
| Records.Field | main.py:55-56 | `b.get(key, '')`: a missing key reads as the empty text |
| Records.Normalize | main.py:55-71 | a kept row's name is non-empty and carries no surrounding whitespace |
| Records.BlankIffEmptyField | main.py:55-59 | a row is skipped as blank exactly when its name or its birthday (missing key counting as '') is empty or all whitespace, whatever the other field holds |
| Monthly.EntryOf | main.py:55-68 | what one row contributes to the monthly list: `{name, day, month}` when it normalises to a person whose birthday is in the current month, nothing otherwise |
| Monthly.Candidates | main.py:54-71 | the list before sorting: the contributions of the rows in row order |
| Monthly.SortedByDay | main.py:74 | the order `sort(key=day)` establishes: days never decrease along the list |
| Monthly.StableSortByDay | main.py:74 | the reference stable sort by day (insertion of each entry after the entries with a day not later than its own) |
| Monthly.MonthlyBirthdays | main.py:54-74 | the value `get_monthly_birthdays` returns: the selected entries, sorted stably by day |
| Monthly.CandidatesAppend | main.py:54-71 | the selection loop treats rows independently: a batch's entries are its halves' entries joined, so a skipped row never stops later rows |
| Monthly.CandidatesMembership | main.py:54-68 | an entry is selected exactly when some row normalises to it in the current month |
| Monthly.EntryOfSpec | main.py:55-68 | a selected entry has the current month, the row's stripped non-empty name and the parsed day and month |
| Monthly.SkippedRow | main.py:58-71 | inserting a blank, unparseable or other-month row anywhere in the batch leaves the monthly list unchanged |
| Monthly.StableSortSorted | main.py:74 | the sorted list is ordered by day and is a permutation of the selected entries |
| Monthly.StableSortKeepsOrder | main.py:74 | stability: entries with the same day keep their original relative order |
| Monthly.StableSortUnique | main.py:74 | any two day-sorted lists with the same same-day order are equal, so every stable sort by day (Python's `list.sort` included) gives this result |
| Monthly.InsertionPoint | main.py:74 | finds the position after the last entry not later than the new one in a sorted list |
| Monthly.SortByDay | main.py:74 | the insertion-sort loop returns the stable sort: sorted by day, a permutation, same-day order kept |
| Monthly.GetMonthlyBirthdays | main.py:46-75 | the loop-and-sort returns the monthly list: sorted by day, stable, a permutation of the in-order selected entries, each in the current month with a non-empty name |
| Digest.Header | main.py:85 | the header line naming the month: the same text as the source's f-string, character for character |
| Digest.BulletLine | main.py:87 | one bullet: "• ", the name, " - <i>", the day in decimal, a space, the month name, "</i>" and a newline, the same text as the source's f-string |
| Digest.BulletLines | main.py:86-87 | the bullets of all entries joined in list order |
| Digest.DigestText | main.py:82-88 | the message: `NoBirthdaysMessage` ("📅 There are no birthdays this month.") for an empty list, otherwise header, bullets and `Closing` ("\nLet's celebrate together! 🎂🎉"), both constants the same text as the source's literals |
| Digest.BulletLinesAt | main.py:86-87 | each entry gets exactly its own bullet, after the bullets of the entries before it and before those after it |
| Digest.DigestShape | main.py:82-88 | the fixed "no birthdays" text is produced exactly when the list is empty; otherwise header naming the month, the bullets, then the closing line |
| Digest.AppendBullets | main.py:86-87 | the `+=` loop appends the bullets of all entries, in list order, to the header |
| Digest.BuildDigest | main.py:82-88 | the built message is the digest text for the list and month |
| Digest.SendMonthlyBirthdayList | main.py:77-96 | exactly one send is attempted, carrying the digest of the monthly list, and earlier attempts are untouched |
| Messaging.AnyDelivered | main.py:123-130 | `found` after the daily loop: some attempt in the log was delivered |
| Messaging.Outbox.SendMessage | main.py:91-93 | each send appends one attempt with its text; whether it is delivered is left open |
| Daily.Greeting | main.py:127 | the greeting for one name: "🎂 <b>Happy Birthday, ", the name, then "!</b> 🎉", two newlines and "Wishing you a fantastic day! 🥳", the same text as the source's f-string |
| Daily.BirthdayToday | main.py:108-121 | what one row gives the daily loop: its stripped name when it normalises to a person whose month and day are today's, nothing otherwise |
| Daily.Celebrants | main.py:107-121 | the stripped names of the matching rows, in row order |
| Daily.DailyGreetings | main.py:107-128 | the texts the daily loop sends: one greeting per matching row, in row order |
| Daily.BirthdayTodayIff | main.py:114-121 | a row is today's birthday exactly when it normalises to a kept row whose month and day are today's |
| Daily.GreetingNamesRecipient | main.py:127 | the greeting contains the stripped name at a fixed place, and different names give different greetings |
| Daily.CelebrantsAppend | main.py:107-132 | the daily loop treats rows independently: a batch's greeted names are its halves' greeted names joined |
| Daily.GreetingAt | main.py:121-128 | a row whose birthday is today is greeted exactly once, by its stripped name, between the greetings of earlier and later rows |
| Daily.SkippedRow | main.py:111-121 | a blank, unparseable or not-today row sends nothing and the rows after it are processed as if it were absent |
| Daily.CelebrantsMembership | main.py:107-128 | a name is greeted exactly when some row with that stripped name has its birthday today |
| Daily.DailyGreetingsStep | main.py:121-128 | one more row adds its greeting at the end when its birthday is today, and nothing otherwise |
| Daily.CheckDailyBirthdays | main.py:98-135 | one send per matching row in row order, every one attempted whatever happened to earlier ones; `found` is true exactly when some send was delivered |
| Scenarios.MarchListOf | main.py:46-75 | any three rows normalising as Alice on 5 March, Bob on 1 March and an unparseable row give March's list Bob then Alice |
| Scenarios.MarchList | main.py:46-75 | for the rows Alice ("2020-03-05"), " Bob " ("2020-03-01") and Carl ("not-a-date"), March's list is Bob then Alice, when the parser reads the two dates as 5 March and 1 March (a host at or west of UTC+6) |
| Scenarios.MarchFifthOf | main.py:98-135 | on 5 March such rows give exactly one greeting, to Alice |
| Scenarios.MarchFifth | main.py:98-135 | on 5 March the three concrete rows give exactly one greeting, to Alice, when the parser reads the two dates as 5 March and 1 March (a host at or west of UTC+6) |
| Scenarios.EmptySource | main.py:82-83 | with no rows the digest is the fixed "no birthdays" text and no greeting is sent |

## Left out

- `fetch_birthdays` (main.py:41-44): the HTTP GET and JSON decoding are network I/O; the model takes the decoded rows. A row whose `name` or `birthday` is present but not a string (JSON `null`, a number) makes `.strip()` raise and abort the whole batch in the source; the model's rows carry text or nothing.
- `dateutil.parser.isoparse(...).astimezone(Asia/Dhaka)` (main.py:25, 62, 115): ISO 8601 parsing and time-zone arithmetic are library behaviour; they are the `Parser` parameter, returning the month and day in Asia/Dhaka or None when parsing raises. A date with no offset, such as "2020-03-05", is a naive datetime, and `astimezone` reads it in the host's local zone: on a host east of UTC+6 it becomes the previous day in Asia/Dhaka (4 March). The model leaves this to the parser passed in; the March scenarios assume a host at or west of UTC+6.
- `datetime.datetime.now(...)` (main.py:48, 80, 100): wall-clock reads are parameters. `send_monthly_birthday_list` reads the clock twice, so `SendMonthlyBirthdayList` takes the selection month and the header month separately.
- `calendar.month_name` is modelled with the English names (the default locale); other locales are not modelled.
- Telegram `Bot` construction and `send_message` (main.py:39, 91-93, 124-128): only the sequence of message texts and a delivered/failed outcome per attempt are modelled, not the chat id, parse mode or HTML rendering.
- `time.sleep(self.MESSAGE_DELAY)` (main.py:129): a rate-limit delay with no logical effect.
- Logging setup and every logger call: side-effect-only output.
- `run_scheduled_job`, `run_continuously` (main.py:137-158): timing and a daemon thread, including the monthly job being scheduled every day.
- `run_all`, the FastAPI endpoint and environment loading (main.py:160-194): wiring only.
- `MAX_RETRIES` (main.py:27): defined but never used.
- Monthly.SortByDay: `list.sort` sorts the local list in place with Timsort; the model sorts a sequence by stable insertion. The list is local to the call, so nothing else observes the difference, and `StableSortUnique` shows that every stable sort by day yields the same list.
