/** The output step of `main` (app.py:79-83): the lists written to good.json and
    error.json after the passes. */
module Report {
  import opened Books
  import opened Checker

  /** The key `main` reads from every entry of both result lists. */
  const BookKey: string := "book"

  /** What `main` writes to error.json, as app.py:83 has it: `result['book']` of every entry
      of `error`. Those entries are bare books, not `{book, status}` records, so the lookup
      reads each book's own "book" field, and raises on the first book that has none. */
  function ErrorJsonAsWritten(error: seq<Book>): (r: Result<seq<string>>)
    ensures r.Ok? <==> forall b :: b in error ==> BookKey in b.fields
    ensures r.KeyError? ==> r.key == BookKey
    ensures r.Ok? ==> |r.value| == |error|
    ensures r.Ok? ==> forall i :: 0 <= i < |error| ==> r.value[i] == error[i].fields[BookKey]
  {
    if error == [] then Ok([])
    else if BookKey !in error[0].fields then KeyError(BookKey)
    else
      match ErrorJsonAsWritten(error[1..])
      case Ok(rest) =>
        assert forall b :: b in error ==> b == error[0] || b in error[1..];
        Ok([error[0].fields[BookKey]] + rest)
      case KeyError(k) =>
        assert forall b :: b in error[1..] ==> b in error;
        KeyError(k)
  }

  /** The two files as `main` writes them. good.json is written first and is already on
      disk when writing error.json raises. */
  datatype WrittenAsIs = WrittenAsIs(goodJson: seq<Book>, errorJson: Result<seq<string>>)

  /** `main` as written, from the catalog to the two files. */
  method WriteReportsAsWritten(books: seq<Book>, net: Network) returns (r: Result<WrittenAsIs>)
    ensures r.KeyError? <==> books != [] && !AllHaveUrl(books)
    ensures r.Ok? ==> multiset(r.value.goodJson) == multiset(Succeeded(books, net, PassCount(books, net)))
    ensures r.Ok? ==> (r.value.errorJson.Ok? <==>
                       forall b :: b in Failing(books, net, PassCount(books, net)) ==> BookKey in b.fields)
    ensures r.Ok? ==> r.value.errorJson.KeyError? ==> r.value.errorJson.key == BookKey
  {
    var checked, attempts := CheckBooks(books, net);
    if checked.KeyError? {
      return KeyError(checked.key);
    }
    var good, error := checked.value.good, checked.value.error;
    ghost var failing := Failing(books, net, PassCount(books, net));
    assert multiset(error) == multiset(failing);
    forall b | b in error ensures b in failing {
      assert b in multiset(error);
    }
    forall b | b in failing ensures b in error {
      assert b in multiset(failing);
    }
    r := Ok(WrittenAsIs(BooksOf(good), ErrorJsonAsWritten(error)));
  }

  /** A book that fails every pass and has no "book" field of its own makes writing
      error.json raise KeyError('book'). */
  lemma SurvivorBreaksErrorJson(books: seq<Book>, net: Network, error: seq<Book>, b: Book)
    requires multiset(error) == multiset(Failing(books, net, PassCount(books, net)))
    requires b in books && BookKey !in b.fields
    requires forall a :: 0 <= a < MaxAttempts ==> !IsOk(net(a, b))
    ensures ErrorJsonAsWritten(error) == KeyError(BookKey)
  {
    RetryConvergesError(books, net, b);
    assert b in multiset(books);
    assert b in multiset(error);
  }

  /** One book with a URL that never answers: `main` as written checks it, writes
      good.json (empty), and then raises on error.json. */
  method UnreachableBookBreaksReport() returns (r: Result<WrittenAsIs>)
    ensures r == Ok(WrittenAsIs([], KeyError(BookKey)))
  {
    var b := new Book(map[UrlKey := "http://unreachable.invalid/"]);
    var net: Network := (k, x) => RequestException;
    assert AllHaveUrl([b]);
    var books := [b];
    RetryConvergesError(books, net, b);
    assert b in Failing(books, net, PassCount(books, net)) by {
      assert b in multiset(Failing(books, net, PassCount(books, net)));
    }
    PartitionComplete(books, net, PassCount(books, net));
    assert Succeeded(books, net, PassCount(books, net)) == [] by {
      var s := Succeeded(books, net, PassCount(books, net));
      assert |multiset(s)| == 0;
    }
    r := WriteReportsAsWritten(books, net);
    assert |multiset(r.value.goodJson)| == 0;
  }

  /** The two files as `main` evidently means them: the books that answered 200, and the
      books still failing. */
  datatype Written = Written(goodJson: seq<Book>, errorJson: seq<Book>)

  /** `main` with error.json written from the failing books themselves: every input book
      lands in exactly one of the two files. */
  method WriteReports(books: seq<Book>, net: Network) returns (r: Result<Written>)
    ensures r.KeyError? <==> books != [] && !AllHaveUrl(books)
    ensures r.KeyError? ==> r.key == UrlKey
    ensures r.Ok? ==> multiset(r.value.goodJson) + multiset(r.value.errorJson) == multiset(books)
    ensures r.Ok? ==> multiset(r.value.goodJson) == multiset(Succeeded(books, net, MaxAttempts))
    ensures r.Ok? ==> multiset(r.value.errorJson) == multiset(Failing(books, net, MaxAttempts))
  {
    var checked, attempts := CheckBooks(books, net);
    if checked.KeyError? {
      return KeyError(checked.key);
    }
    EarlyStopIsSafe(books, net);
    PartitionComplete(books, net, attempts);
    r := Ok(Written(BooksOf(checked.value.good), checked.value.error));
  }
}
