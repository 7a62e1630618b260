/**
 * One row of the birthday sheet as decoded from JSON, and the shared
 * normalisation both checks apply to it: strip `name` and `birthday`, skip
 * the row when either is empty, parse the birthday, skip the row when the
 * parse fails.
 */
module Records {
  import opened Wrappers
  import opened Text
  import opened Calendar

  /** A decoded row: either key may be missing, and a missing key reads as ''. */
  datatype RawRecord = RawRecord(name: Option<string>, birthday: Option<string>)

  /**
   * ISO 8601 parsing followed by conversion to Asia/Dhaka, reduced to what the bot reads
   * from it: the month and day in Asia/Dhaka, or None when parsing raises.
   * A date with no offset is read in the host's local zone before the
   * conversion, so the same text can give different days on different hosts.
   */
  type Parser = string -> Option<MonthDay>

  /** A field's text, '' when the key is missing. */
  function Field(value: Option<string>): string {
    value.GetOr("")
  }

  /** A row that survived normalisation: its stripped name and its date. */
  datatype Person = Person(name: string, date: MonthDay)

  /** Why a row is kept or skipped. */
  datatype Normalized =
    | Valid(person: Person)
    | Blank                      // stripped name or stripped birthday is empty
    | Unparseable(raw: string)   // the stripped birthday did not parse

  /**
   * The per-row steps both checks run before looking at the date. A kept
   * row's name is never blank and carries no surrounding spaces.
   */
  function Normalize(r: RawRecord, parse: Parser): (n: Normalized)
    ensures n.Valid? ==>
      && n.person.name != []
      && !IsSpace(n.person.name[0])
      && !IsSpace(n.person.name[|n.person.name| - 1])
  {
    var name := Strip(Field(r.name));
    var rawBirthday := Strip(Field(r.birthday));
    StripBorders(Field(r.name));
    if name == [] || rawBirthday == [] then
      Blank
    else
      match parse(rawBirthday)
      case None => Unparseable(rawBirthday)
      case Some(md) => Valid(Person(name, md))
  }

  /**
   * A row whose name or birthday is missing or all spaces is skipped as
   * blank, whatever the other field holds; and only such a row is.
   */
  lemma BlankIffEmptyField(r: RawRecord, parse: Parser)
    ensures Normalize(r, parse).Blank? <==> AllSpace(Field(r.name)) || AllSpace(Field(r.birthday))
  {
    StripEmptyIff(Field(r.name));
    StripEmptyIff(Field(r.birthday));
  }
}
