/** Values shared by the crawler's modules: one scraped entry, an optional
    value, and distinctness of a list of sector names. */
module Records {

  /** One (ticker, percent-change) pair scraped from a heatmap tile. The
      change is kept as the displayed text; it is never parsed. */
  datatype Entry = Entry(ticker: string, change: string)

  datatype Option<T> = None | Some(value: T)

  /** No sector name occurs twice. */
  predicate Distinct(names: seq<string>)
  {
    forall i, j :: 0 <= i < j < |names| ==> names[i] != names[j]
  }
}
