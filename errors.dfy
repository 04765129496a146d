/**
 * The exceptions the scraper's core can raise once fetching is abstracted away.
 * Each one aborts the operation that raised it; the index says where it happened.
 */
module Errors {

  datatype Error =
    /** `soup.find(...)` found no snapshot table, so `table.find_all` raises AttributeError. */
    | MissingTable
    /** Row `row` has fewer than 12 cells, so `cols[column_number]` raises IndexError. */
    | ShortRow(row: nat)
    /** Link `link` has no `href` attribute, so `link.attrs['href']` raises KeyError. */
    | MissingHref(link: nat)
    /** Ticker `ticker` has no entry for the attribute, so `ticker.data[attribute]` raises KeyError. */
    | MissingAttribute(ticker: nat)
    /** The object list is empty, so `fin_viz_objects[0]` raises IndexError. */
    | NoObjects
    /** Object `row`'s value list cannot be broadcast into a matrix row, so numpy raises ValueError. */
    | ShapeMismatch(row: nat)
}
