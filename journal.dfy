/** The journal's data: an entry record as the dashboard and the entry form
    read and write it, and the result of parsing a date string. */
module Journal {
  import opened Wrappers

  /** An entry's `id`: a number, or missing (`undefined`). JavaScript's
      floating-point ids are modelled as integers. */
  datatype EntryId = NoId | Id(n: int)
  {
    /** `!!entry.id`: a missing id and the number 0 are falsy. */
    predicate Truthy()
    {
      Id? && n != 0
    }
  }

  /** What the id source (`Date.now() + Math.random()`) hands out: some truthy
      id. Nothing makes it differ from the ids already stored. */
  type FreshId = id: EntryId | id.Truthy() witness Id(1)

  type Month = m: int | 0 <= m < 12
  type DayOfMonth = d: int | 1 <= d <= 31 witness 1

  /** The local-time calendar day of a date (`getFullYear`, `getMonth`,
      `getDate`). */
  datatype CalendarDate = CalendarDate(year: int, month: Month, day: DayOfMonth)

  /** `new Date(s)`: an invalid date, or a calendar day in the viewer's time
      zone together with the millisecond timestamp that subtraction yields. */
  datatype ParsedDate = Invalid | Valid(on: CalendarDate, time: int)

  /** The date parser is an oracle: whatever the browser makes of a string. */
  type DateParser = string -> ParsedDate

  /** A journal entry. Absent text fields are the empty string and absent
      tags the empty list, which is what the code's `|| ''` and `|| []`
      fallbacks make of them. */
  datatype Entry = Entry(
    id: EntryId,
    title: string,
    date: string,
    mood: string,
    content: string,
    tags: seq<string>,
    background: string,
    font: string,
    weatherIcon: string,
    temperature: string,
    weatherType: string,
    humidity: Option<real>,
    windSpeed: Option<real>,
    locationName: string)
}
