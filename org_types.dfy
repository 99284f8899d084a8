/** The Org document model shared by the parser, the serialiser and the reducers:
    a file is a flat sequence of headers, each with an id, a nesting level and an
    `opened` flag; titles and descriptions are sequences of parts. */
module OrgTypes {
  import opened Wrappers

  /** Header, list-item, table-row and table-cell ids. In JavaScript an id is
      falsy exactly when it is 0 (`getNextId` starts counting at 0). */
  type Id = nat

  predicate Truthy(id: Option<Id>)
  {
    id.Some? && id.value != 0
  }

  datatype CheckboxState = Checked | Unchecked | Partial

  /** One piece of an attributed string (title, description, list item, cell). */
  datatype Part =
    | Text(contents: string)
      /** `[[uri]]` or `[[uri][title]]`; `uri` is None for the JavaScript `undefined`
          that `[[]]` produces. */
    | Link(uri: Option<string>, title: Option<string>)
      /** A `[done/total]` progress cookie; None while it is still empty (`[/]`). */
    | FractionCookie(fraction: Option<(nat, nat)>)
      /** A `[pct%]` progress cookie; None while empty or when 0/0 gives NaN. */
    | PercentageCookie(percentage: Option<nat>)
    | PlainList(items: seq<ListItem>)
    | Table(rows: seq<TableRow>)

  datatype ListItem = ListItem(id: Id, titleLine: seq<Part>, contents: seq<Part>,
                               isCheckbox: bool, checkboxState: CheckboxState)

  datatype TableRow = TableRow(id: Id, cells: seq<TableCell>)

  datatype TableCell = TableCell(id: Id, rawContents: string, contents: seq<Part>)

  /** `todoKeyword` is None for the JavaScript `undefined` the parser leaves when
      the line starts with no keyword, and Some("") for the `''` a header gets
      when its keyword is advanced past the last one of its set. */
  datatype TitleLine = TitleLine(title: seq<Part>, rawTitle: string, todoKeyword: Option<string>,
                                 tags: seq<string>)
  {
    /** The keyword as JavaScript's truthiness tests read it: `undefined` and
        `''` both mean "no keyword". */
    function Keyword(): string
    {
      todoKeyword.GetOr("")
    }
  }

  /** A property drawer entry; `value` is held in its raw text form. */
  datatype PropertyItem = PropertyItem(id: Id, property: string, value: string)

  /** A CLOCK line; timestamps are abstracted to integers (minutes). */
  datatype LogEntry = LogEntry(start: Option<int>, end: Option<int>)

  /** Clock totals that `clocking.js` stores on a header. */
  datatype ClockTotals = ClockTotals(own: int, recursive: int)

  datatype Header = Header(
    id: Id,
    nestingLevel: nat,
    isOpened: bool,
    titleLine: TitleLine,
    rawDescription: string,
    description: seq<Part>,
    propertyListItems: seq<PropertyItem>,
    logBookEntries: seq<LogEntry>,
    totalTimeLogged: Option<ClockTotals>,
    totalFilteredTimeLogged: Option<ClockTotals>)

  /** A `#+TODO:` keyword set. */
  datatype KeywordSet = KeywordSet(keywords: seq<string>, completedKeywords: seq<string>,
                                   configLine: string, isDefault: bool)

  /** No two headers share an id. Stated over `Ids` so that the quantifier only
      fires where a proof asks about ids by position. */
  predicate UniqueIds(headers: seq<Header>)
  {
    forall i, j :: 0 <= i < j < |headers| ==> Ids(headers)[i] != Ids(headers)[j]
  }

  function Levels(headers: seq<Header>): (r: seq<nat>)
    ensures |r| == |headers|
    ensures forall i :: 0 <= i < |headers| ==> r[i] == headers[i].nestingLevel
  {
    seq(|headers|, i requires 0 <= i < |headers| => headers[i].nestingLevel)
  }

  function Ids(headers: seq<Header>): (r: seq<Id>)
    ensures |r| == |headers|
    ensures forall i {:trigger r[i]} :: 0 <= i < |headers| ==> r[i] == headers[i].id
  {
    seq(|headers|, i requires 0 <= i < |headers| => headers[i].id)
  }
}
