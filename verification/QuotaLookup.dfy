/** `quotas.one(name=...)` of session/resources.py: a query by the end of the path, which may also
    find quotas of other owners. */
module QuotaLookup {
  import opened Strings

  function Named(quotas: set<string>, name: string): set<string> {
    set q | q in quotas && EndsWith(q, name)
  }
}
