/**
 * The rows the batch job moves around.
 *
 * Prices are fixed-point integers: a source price is a number of hundredths
 * (499.95 is 49995) and a rounded price a number of tenths (500.0 is 5000).
 * Timestamps are opaque integers; the model never computes with them.
 */
module Books {
  import opened Wrappers

  /** A row of the source table `books`, as the extractor yields it. */
  datatype Book = Book(
    bookId: Option<int>,
    title: string,
    price: int,
    genre: string,
    stockQuantity: int,
    lastUpdated: int)

  /** A row after the transformer: `price` is gone, three derived columns are added. */
  datatype ProcessedBook = ProcessedBook(
    bookId: Option<int>,
    title: string,
    genre: string,
    stockQuantity: int,
    lastUpdated: int,
    originalPrice: int,
    roundedPrice: int,
    priceCategory: string)

  /** A row of the destination table `books_processed`: the six columns the loader writes. */
  datatype ProcessedRow = ProcessedRow(
    bookId: Option<int>,
    title: string,
    originalPrice: int,
    roundedPrice: int,
    genre: string,
    priceCategory: string)
}
