/**
 * The member record as the roster stores it: a flat object of string
 * properties plus a `customData` object keyed by custom field id.
 */
module Records {

  /**
   * A member record. `fields` holds the record's own properties (`rowId`,
   * `rank`, `tisDate`, `dorDate`, `btzStatus`, `supervisor`, `teamSelect`, ...);
   * where the roster code only tests a property's truthiness, a missing
   * property is read as the empty string (`Prop`); where it tells missing
   * from present (the `!== undefined` test on custom data at script.js:92,
   * `replace` throwing on a missing `teamSelect`, the object spreads), the
   * model tests map membership instead.
   */
  datatype Member = Member(fields: map<string, string>, customData: map<string, string>)

  /** The value of property `key`, or "" when the record has none. */
  function Prop(m: Member, key: string): (v: string)
    ensures key !in m.fields ==> v == ""
    ensures key in m.fields ==> v == m.fields[key]
  {
    if key in m.fields then m.fields[key] else ""
  }

  /** The record's `rowId`, its key in every roster list. */
  function Id(m: Member): string {
    Prop(m, "rowId")
  }

  /** `m && m.rowId`: the test every roster list applies before keeping a record. */
  predicate HasRowId(m: Member) {
    Id(m) != ""
  }
}
