/** A cell that may be empty: NaN in a pandas column, a JSON key left out, or
    a search that found nothing. */
module Optional {

  datatype Option<T> = None | Some(value: T)

  /** `fillna(default)` for one cell: the value when there is one, `default`
      otherwise. */
  function Fill<T>(o: Option<T>, default: T): (r: T)
    ensures o.Some? ==> r == o.value
    ensures o.None? ==> r == default
  {
    if o.Some? then o.value else default
  }
}
