/** The two shapes a registration line takes: the CSV record as read (what
    ends up in the accepted rows) and the typed record the validators read
    their hours and month from. */
module Records {
  import opened Common

  /** One line of the registrations CSV. `hours` is the outcome of
      `float(row["CHS AMB."])`: `None` when the text is not a number. */
  datatype Row = Row(cnes: string, ibge: string, name: string, hours: Option<real>, cbo: string, comp: string)

  /** `RowProcessData`: the typed view of a line. */
  datatype RowProcessData = RowProcessData(cnes: string, ibge: string, name: string, chsAmb: real, cboDesc: string, compValue: string)

  /** Building the typed view copies every field; it fails (a `ValueError`)
      exactly when the hours are not a number. */
  function ToProcessData(row: Row): (r: Option<RowProcessData>)
    ensures r.None? <==> row.hours.None?
    ensures r.Some? ==> r.value == RowProcessData(row.cnes, row.ibge, row.name, row.hours.value, row.cbo, row.comp)
  {
    match row.hours
    case None => None
    case Some(h) => Some(RowProcessData(row.cnes, row.ibge, row.name, h, row.cbo, row.comp))
  }
}
