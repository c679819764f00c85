/** Book sources and the probe that checks one of them (`Book.check` in app.py). */
module Books {

  /** A book source as the catalog's JSON list holds it: an object with string fields.
      It is a reference, as the source's dicts are: two entries with equal fields are
      still two entries, probed separately and kept separately. */
  class Book {
    const fields: map<string, string>

    constructor (fields: map<string, string>)
      ensures this.fields == fields
    {
      this.fields := fields;
    }
  }

  /** The field the probe reads the URL from. */
  const UrlKey: string := "bookSourceUrl"

  predicate HasUrl(b: Book) {
    UrlKey in b.fields
  }

  /** Every book of the list has a URL to probe. */
  predicate AllHaveUrl(books: seq<Book>) {
    forall b :: b in books ==> HasUrl(b)
  }

  /** What one HTTP GET of a book's URL yields: a status code, or an exception
      (connection refused, timeout, TLS or DNS failure, malformed URL). */
  datatype Response = Status(code: int) | RequestException

  /** 200 OK, section 15.3.1 of RFC 9110. */
  const HttpOk: int := 200

  predicate IsOk(resp: Response) {
    resp.Status? && resp.code == HttpOk
  }

  /** The record `check` returns, `{'book': abook, 'status': ...}`. */
  datatype Outcome = Outcome(book: Book, status: bool)

  /** A value, or the one exception the modelled code lets escape: a dictionary
      lookup of a missing key. */
  datatype Result<T> = Ok(value: T) | KeyError(key: string)

  /** `check(abook)`: the verdict on one probe, given what the network answered.
      The URL is read inside the `try`, but the handler catches only request exceptions,
      so the KeyError of a book without one escapes. */
  function Check(b: Book, resp: Response): (r: Result<Outcome>)
    ensures r.KeyError? <==> !HasUrl(b)
    ensures r.KeyError? ==> r.key == UrlKey
    ensures r.Ok? ==> r.value.book == b
    ensures r.Ok? ==> (r.value.status <==> resp == Status(200))
  {
    if UrlKey !in b.fields then KeyError(UrlKey)
    else Ok(Outcome(b, IsOk(resp)))
  }

  /** `[result['book'] for result in outcomes]`. */
  function BooksOf(outcomes: seq<Outcome>): (bs: seq<Book>)
    ensures |bs| == |outcomes|
    ensures forall i :: 0 <= i < |outcomes| ==> bs[i] == outcomes[i].book
  {
    seq(|outcomes|, i requires 0 <= i < |outcomes| => outcomes[i].book)
  }

  lemma BooksOfAppend(xs: seq<Outcome>, ys: seq<Outcome>)
    ensures BooksOf(xs + ys) == BooksOf(xs) + BooksOf(ys)
  {
  }
}
