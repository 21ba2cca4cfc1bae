/**
 * The row transformer `transform_data`: a pure mapping over a batch that
 * copies the price, rounds it to one decimal place and classifies it.
 */
module Transform {
  import opened Wrappers
  import opened Books

  const BUDGET := "budget"
  const PREMIUM := "premium"

  /** 500.0 in tenths: a rounded price at or above this is premium. */
  const PREMIUM_FROM := 5000

  /**
   * `round(price, 1)` on a price given in hundredths, in tenths. The result
   * is a nearest tenth; when two tenths are equally near (the hundredths
   * digit is 5) the even one is chosen, so 49995 becomes 5000.
   */
  function RoundToTenths(hundredths: int): (tenths: int)
    ensures -5 <= 10 * tenths - hundredths <= 5
    ensures 10 * tenths - hundredths in {-5, 5} ==> tenths % 2 == 0
  {
    var whole, digit := hundredths / 10, hundredths % 10;
    if digit < 5 then whole
    else if digit > 5 then whole + 1
    else if whole % 2 == 0 then whole
    else whole + 1
  }

  /** The two properties of RoundToTenths determine its value. */
  lemma RoundToTenthsUnique(hundredths: int, tenths: int)
    requires -5 <= 10 * tenths - hundredths <= 5
    requires 10 * tenths - hundredths in {-5, 5} ==> tenths % 2 == 0
    ensures tenths == RoundToTenths(hundredths)
  {
  }

  /** The category of a rounded price: strictly below 500.0 is budget. */
  function Category(roundedTenths: int): (category: string)
    ensures category == BUDGET <==> roundedTenths < PREMIUM_FROM
    ensures category == PREMIUM <==> roundedTenths >= PREMIUM_FROM
  {
    if roundedTenths < PREMIUM_FROM then BUDGET else PREMIUM
  }

  /**
   * What the transformer promises of one output row: the columns other than
   * price pass through, the original price is the price, the rounded price is
   * the half-to-even nearest tenth and the category follows the rounded price.
   */
  ghost predicate Derived(book: Book, out: ProcessedBook)
  {
    && out.bookId == book.bookId
    && out.title == book.title
    && out.genre == book.genre
    && out.stockQuantity == book.stockQuantity
    && out.lastUpdated == book.lastUpdated
    && out.originalPrice == book.price
    && -5 <= 10 * out.roundedPrice - book.price <= 5
    && (10 * out.roundedPrice - book.price in {-5, 5} ==> out.roundedPrice % 2 == 0)
    && (out.priceCategory == BUDGET <==> out.roundedPrice < PREMIUM_FROM)
    && (out.priceCategory == PREMIUM <==> out.roundedPrice >= PREMIUM_FROM)
  }

  /** At most one row is Derived from a given book. */
  lemma DerivedUnique(book: Book, a: ProcessedBook, b: ProcessedBook)
    requires Derived(book, a) && Derived(book, b)
    ensures a == b
  {
    RoundToTenthsUnique(book.price, a.roundedPrice);
    RoundToTenthsUnique(book.price, b.roundedPrice);
    assert a.priceCategory == (if a.roundedPrice < PREMIUM_FROM then BUDGET else PREMIUM);
    assert b.priceCategory == (if b.roundedPrice < PREMIUM_FROM then BUDGET else PREMIUM);
  }

  /** The transformer applied to one row. */
  function TransformRow(book: Book): (out: ProcessedBook)
    ensures Derived(book, out)
  {
    var rounded := RoundToTenths(book.price);
    ProcessedBook(book.bookId, book.title, book.genre, book.stockQuantity, book.lastUpdated,
                  book.price, rounded, Category(rounded))
  }

  /**
   * `transform_data`: an empty batch comes back empty; otherwise every row is
   * transformed, in order.
   */
  function TransformData(batch: seq<Book>): (out: seq<ProcessedBook>)
    ensures |out| == |batch|
    ensures forall i :: 0 <= i < |batch| ==> Derived(batch[i], out[i])
  {
    if batch == [] then []
    else [TransformRow(batch[0])] + TransformData(batch[1..])
  }

  /** Transforming a batch piecewise gives the transformed whole batch. */
  lemma {:induction false} TransformAppend(a: seq<Book>, b: seq<Book>)
    ensures TransformData(a + b) == TransformData(a) + TransformData(b)
  {
    if a == [] {
      assert a + b == b;
    } else {
      assert (a + b)[1..] == a[1..] + b;
      TransformAppend(a[1..], b);
    }
  }

  /** Each transformed row is the one TransformRow computes for its book. */
  lemma TransformDataAt(batch: seq<Book>, i: int)
    requires 0 <= i < |batch|
    ensures TransformData(batch)[i] == TransformRow(batch[i])
  {
    DerivedUnique(batch[i], TransformData(batch)[i], TransformRow(batch[i]));
  }

  /** The three books of the transformer's tests (all updated at the same instant). */
  function SampleBooks(): seq<Book>
  {
    [Book(Some(1), "Cheap Book", 10000, "Fiction", 10, 0),
     Book(Some(2), "Expensive Book", 99999, "Tech", 5, 0),
     Book(Some(3), "Borderline Book", 49995, "History", 2, 0)]
  }

  /**
   * On the sample books, prices 100.00, 999.99 and 499.95 round to 100.0,
   * 1000.0 and 500.0 and are budget, premium and premium.
   */
  lemma TransformSample()
    ensures |TransformData(SampleBooks())| == 3
    ensures TransformData(SampleBooks())[0].roundedPrice == 1000
    ensures TransformData(SampleBooks())[1].roundedPrice == 10000
    ensures TransformData(SampleBooks())[2].roundedPrice == 5000
    ensures TransformData(SampleBooks())[0].priceCategory == BUDGET
    ensures TransformData(SampleBooks())[1].priceCategory == PREMIUM
    ensures TransformData(SampleBooks())[2].priceCategory == PREMIUM
  {
    TransformDataAt(SampleBooks(), 0);
    TransformDataAt(SampleBooks(), 1);
    TransformDataAt(SampleBooks(), 2);
  }
}
