/** The retry passes of `Book.checkbooks` (app.py): probe every still-failing book,
    keep the ones that answered 200, retry the rest, at most five times. */
module Checker {
  import opened Books

  /** `max_attempts` in app.py. */
  const MaxAttempts: nat := 5

  /** The network: the response to the probe of book `b` on pass `k` (passes count from 0). */
  type Network = (nat, Book) -> Response

  datatype Partition = Partition(good: seq<Outcome>, error: seq<Book>)

  datatype PassOutcomes = PassOutcomes(newGood: seq<Outcome>, newError: seq<Outcome>)

  // ---------------------------------------------------------------------------
  // Specification: which books have succeeded after k passes

  /** Some probe of `b` among passes 0 .. k-1 answered 200. */
  predicate SucceedsWithin(net: Network, b: Book, k: nat) {
    k > 0 && (SucceedsWithin(net, b, k - 1) || IsOk(net(k - 1, b)))
  }

  /** The books of `books` that succeeded within k passes, in input order. */
  function Succeeded(books: seq<Book>, net: Network, k: nat): seq<Book> {
    if books == [] then []
    else (if SucceedsWithin(net, books[0], k) then [books[0]] else []) + Succeeded(books[1..], net, k)
  }

  /** The books of `books` that did not succeed within k passes, in input order. */
  function Failing(books: seq<Book>, net: Network, k: nat): seq<Book> {
    if books == [] then []
    else (if SucceedsWithin(net, books[0], k) then [] else [books[0]]) + Failing(books[1..], net, k)
  }

  predicate AllSucceeded(books: seq<Book>, net: Network, k: nat) {
    forall i :: 0 <= i < |books| ==> SucceedsWithin(net, books[i], k)
  }

  /** The number of passes the loop runs: the first k at which nothing is left to retry,
      or MaxAttempts. */
  function PassesFrom(books: seq<Book>, net: Network, k: nat): (n: nat)
    requires k <= MaxAttempts
    ensures k <= n <= MaxAttempts
    ensures n == MaxAttempts || AllSucceeded(books, net, n)
    ensures forall j :: k <= j < n ==> !AllSucceeded(books, net, j)
    decreases MaxAttempts - k
  {
    if k == MaxAttempts || AllSucceeded(books, net, k) then k
    else PassesFrom(books, net, k + 1)
  }

  function PassCount(books: seq<Book>, net: Network): (n: nat)
    ensures n <= MaxAttempts
    ensures n == MaxAttempts || AllSucceeded(books, net, n)
    ensures forall j :: 0 <= j < n ==> !AllSucceeded(books, net, j)
  {
    PassesFrom(books, net, 0)
  }

  // ---------------------------------------------------------------------------
  // Lemmas about the specification

  /** SucceedsWithin is "some pass before k answered 200". */
  lemma {:induction false} SucceedsWithinIff(net: Network, b: Book, k: nat)
    ensures SucceedsWithin(net, b, k) <==> exists a :: 0 <= a < k && IsOk(net(a, b))
  {
    if k > 0 {
      SucceedsWithinIff(net, b, k - 1);
      if IsOk(net(k - 1, b)) {
        assert 0 <= k - 1 < k && IsOk(net(k - 1, b));
      }
      if a :| 0 <= a < k && IsOk(net(a, b)) {
        if a < k - 1 {
          assert SucceedsWithin(net, b, k - 1);
        }
      }
    }
  }

  /** A book that has succeeded stays succeeded. */
  lemma {:induction false} SucceedsWithinMonotone(net: Network, b: Book, k: nat, k': nat)
    requires k <= k'
    requires SucceedsWithin(net, b, k)
    ensures SucceedsWithin(net, b, k')
    decreases k' - k
  {
    if k < k' {
      SucceedsWithinMonotone(net, b, k, k' - 1);
    }
  }

  /** How often x occurs among the books that succeeded within k passes. */
  lemma {:induction false} SucceededCount(books: seq<Book>, net: Network, k: nat, x: Book)
    ensures multiset(Succeeded(books, net, k))[x]
         == if SucceedsWithin(net, x, k) then multiset(books)[x] else 0
  {
    if books != [] {
      assert books == [books[0]] + books[1..];
      SucceededCount(books[1..], net, k, x);
    }
  }

  /** How often x occurs among the books still failing after k passes. */
  lemma {:induction false} FailingCount(books: seq<Book>, net: Network, k: nat, x: Book)
    ensures multiset(Failing(books, net, k))[x]
         == if SucceedsWithin(net, x, k) then 0 else multiset(books)[x]
  {
    if books != [] {
      assert books == [books[0]] + books[1..];
      FailingCount(books[1..], net, k, x);
    }
  }

  /** Two multisets of books are equal when every book occurs as often in both. */
  lemma SameCounts(a: multiset<Book>, b: multiset<Book>)
    requires forall x: Book :: a[x] == b[x]
    ensures a == b
  {
  }

  /** Partition completeness: after any number of passes, every input book is either
      among those that succeeded or among those still failing, as often as it is in the input. */
  lemma PartitionComplete(books: seq<Book>, net: Network, k: nat)
    ensures multiset(Succeeded(books, net, k)) + multiset(Failing(books, net, k)) == multiset(books)
  {
    var ok, bad := multiset(Succeeded(books, net, k)), multiset(Failing(books, net, k));
    forall x: Book ensures (ok + bad)[x] == multiset(books)[x] {
      SucceededCount(books, net, k, x);
      FailingCount(books, net, k, x);
    }
    SameCounts(ok + bad, multiset(books));
  }

  /** Nothing is left to retry exactly when every book has succeeded. */
  lemma {:induction false} FailingEmptyIff(books: seq<Book>, net: Network, k: nat)
    ensures Failing(books, net, k) == [] <==> AllSucceeded(books, net, k)
  {
    if books != [] {
      FailingEmptyIff(books[1..], net, k);
      if AllSucceeded(books, net, k) {
        assert forall i :: 0 <= i < |books| - 1 ==> books[1..][i] == books[i + 1];
      }
      if AllSucceeded(books[1..], net, k) && SucceedsWithin(net, books[0], k) {
        forall i | 0 <= i < |books| ensures SucceedsWithin(net, books[i], k) {
          if i > 0 {
            assert books[i] == books[1..][i - 1];
          }
        }
      }
    }
  }

  /** Once every book has succeeded, further passes change neither side. */
  lemma {:induction false} SettledStays(books: seq<Book>, net: Network, k: nat, k': nat)
    requires k <= k'
    requires AllSucceeded(books, net, k)
    ensures Succeeded(books, net, k') == books
    ensures Failing(books, net, k') == []
  {
    if books != [] {
      SucceedsWithinMonotone(net, books[0], k, k');
      assert AllSucceeded(books[1..], net, k) by {
        forall i | 0 <= i < |books| - 1 ensures SucceedsWithin(net, books[1..][i], k) {
          assert books[1..][i] == books[i + 1];
        }
      }
      SettledStays(books[1..], net, k, k');
    }
  }

  /** Stopping early loses nothing: the partition after the passes the loop runs is the
      one all MaxAttempts passes would give. */
  lemma EarlyStopIsSafe(books: seq<Book>, net: Network)
    ensures Succeeded(books, net, PassCount(books, net)) == Succeeded(books, net, MaxAttempts)
    ensures Failing(books, net, PassCount(books, net)) == Failing(books, net, MaxAttempts)
  {
    var n := PassCount(books, net);
    if n < MaxAttempts {
      SettledStays(books, net, n, n);
      SettledStays(books, net, n, MaxAttempts);
    }
  }

  /** Before any pass nothing has succeeded: every book is still to be checked. */
  lemma {:induction false} BeforeFirstPass(books: seq<Book>, net: Network)
    ensures Failing(books, net, 0) == books
    ensures Succeeded(books, net, 0) == []
  {
    if books != [] {
      BeforeFirstPass(books[1..], net);
      assert books == [books[0]] + books[1..];
    }
  }

  /** Retry convergence, success side: a book whose probe answers 200 on some pass
      a < MaxAttempts ends among the good ones, and every copy of it does. */
  lemma RetryConvergesGood(books: seq<Book>, net: Network, b: Book, a: nat)
    requires b in books
    requires a < MaxAttempts && IsOk(net(a, b))
    ensures multiset(Succeeded(books, net, PassCount(books, net)))[b] == multiset(books)[b]
    ensures b !in Failing(books, net, PassCount(books, net))
  {
    SucceedsWithinIff(net, b, MaxAttempts);
    EarlyStopIsSafe(books, net);
    SucceededCount(books, net, MaxAttempts, b);
    FailingCount(books, net, MaxAttempts, b);
  }

  /** Retry convergence, failure side: a book whose probe fails on every one of the
      MaxAttempts passes ends in the error list, and every copy of it does. */
  lemma RetryConvergesError(books: seq<Book>, net: Network, b: Book)
    requires b in books
    requires forall a :: 0 <= a < MaxAttempts ==> !IsOk(net(a, b))
    ensures multiset(Failing(books, net, PassCount(books, net)))[b] == multiset(books)[b]
    ensures b !in Succeeded(books, net, PassCount(books, net))
  {
    SucceedsWithinIff(net, b, MaxAttempts);
    EarlyStopIsSafe(books, net);
    SucceededCount(books, net, MaxAttempts, b);
    FailingCount(books, net, MaxAttempts, b);
  }

  /** Early termination: if every probe of the first pass answers 200, the loop runs
      exactly one pass (none for an empty input). */
  lemma FirstPassAllOk(books: seq<Book>, net: Network)
    requires forall i :: 0 <= i < |books| ==> IsOk(net(0, books[i]))
    ensures PassCount(books, net) == if books == [] then 0 else 1
  {
    assert AllSucceeded(books, net, 1);
    if books != [] {
      assert !SucceedsWithin(net, books[0], 0);
    }
  }

  /** Early termination in general: a pass the loop runs in which every book it retries
      answers 200 is the last pass. */
  lemma AllOkPassIsLast(books: seq<Book>, net: Network, k: nat)
    requires k < PassCount(books, net)
    requires forall b :: b in Failing(books, net, k) ==> IsOk(net(k, b))
    ensures PassCount(books, net) == k + 1
  {
    forall i | 0 <= i < |books| ensures SucceedsWithin(net, books[i], k + 1) {
      FailingCount(books, net, k, books[i]);
      if !SucceedsWithin(net, books[i], k) {
        assert books[i] in multiset(Failing(books, net, k));
      }
    }
  }

  /** Two sources, one always answering 200 and one always refusing the connection: all
      five passes run, the first ends good and the second in error. */
  lemma OneUpOneDown(up: Book, down: Book, net: Network)
    requires forall k :: net(k, up) == Status(HttpOk)
    requires forall k :: net(k, down) == RequestException
    ensures PassCount([up, down], net) == MaxAttempts
    ensures Succeeded([up, down], net, MaxAttempts) == [up]
    ensures Failing([up, down], net, MaxAttempts) == [down]
  {
    var books := [up, down];
    forall k: nat ensures !SucceedsWithin(net, down, k) {
      SucceedsWithinIff(net, down, k);
    }
    assert SucceedsWithin(net, up, MaxAttempts) by {
      SucceedsWithinIff(net, up, MaxAttempts);
      assert IsOk(net(0, up));
    }
    forall j: nat ensures !AllSucceeded(books, net, j) {
      assert !SucceedsWithin(net, books[1], j);
    }
    assert !SucceedsWithin(net, down, MaxAttempts);
    assert books[1..] == [down] && books[1..][1..] == [];
    assert Succeeded([down], net, MaxAttempts) == [] && Failing([down], net, MaxAttempts) == [down];
  }

  /** The second source refuses the connection on the first two passes and answers 200 on
      the third: the loop stops after three passes with both sources good. */
  lemma RecoversOnThirdPass(up: Book, down: Book, net: Network)
    requires forall k :: net(k, up) == Status(HttpOk)
    requires net(0, down) == RequestException && net(1, down) == RequestException
    requires net(2, down) == Status(HttpOk)
    ensures PassCount([up, down], net) == 3
    ensures Succeeded([up, down], net, 3) == [up, down]
    ensures Failing([up, down], net, 3) == []
  {
    var books := [up, down];
    assert SucceedsWithin(net, up, 1);
    SucceedsWithinMonotone(net, up, 1, 3);
    assert !SucceedsWithin(net, down, 1);
    assert !SucceedsWithin(net, down, 2);
    assert !AllSucceeded(books, net, 0) && !AllSucceeded(books, net, 1) && !AllSucceeded(books, net, 2) by {
      assert books[1] == down;
    }
    assert AllSucceeded(books, net, 3);
    SettledStays(books, net, 3, 3);
  }

  /** One pass moves the books of the batch that answered 200 from the failing side to
      the succeeded side, and keeps the rest failing. */
  lemma {:induction false} PassStep(books: seq<Book>, net: Network, k: nat,
                                    batch: seq<Book>, ok: seq<Book>, bad: seq<Book>)
    requires multiset(batch) == multiset(Failing(books, net, k))
    requires multiset(ok) + multiset(bad) == multiset(batch)
    requires forall b :: b in ok ==> IsOk(net(k, b))
    requires forall b :: b in bad ==> !IsOk(net(k, b))
    ensures multiset(bad) == multiset(Failing(books, net, k + 1))
    ensures multiset(Succeeded(books, net, k)) + multiset(ok) == multiset(Succeeded(books, net, k + 1))
  {
    var before, after := multiset(Succeeded(books, net, k)), multiset(Succeeded(books, net, k + 1));
    var rest := multiset(Failing(books, net, k + 1));
    forall x: Book ensures multiset(bad)[x] == rest[x] && before[x] + multiset(ok)[x] == after[x] {
      FailingCount(books, net, k, x);
      FailingCount(books, net, k + 1, x);
      SucceededCount(books, net, k, x);
      SucceededCount(books, net, k + 1, x);
      assert multiset(ok)[x] + multiset(bad)[x] == multiset(batch)[x];
      if IsOk(net(k, x)) {
        assert x !in bad;
      } else {
        assert x !in ok;
      }
    }
    SameCounts(multiset(bad), rest);
    SameCounts(before + multiset(ok), after);
  }

  /** The loop's state after k passes: `error` holds the books still failing, `good` the
      records of the ones that succeeded, all with status True. */
  ghost predicate Progress(books: seq<Book>, net: Network, k: nat, good: seq<Outcome>, error: seq<Book>) {
    && multiset(error) == multiset(Failing(books, net, k))
    && multiset(BooksOf(good)) == multiset(Succeeded(books, net, k))
    && (forall o :: o in good ==> o.status)
  }

  /** After every pass `good` and `error` together hold as many entries as the input. */
  lemma ProgressLengths(books: seq<Book>, net: Network, k: nat, good: seq<Outcome>, error: seq<Book>)
    requires Progress(books, net, k, good, error)
    ensures |good| + |error| == |books|
  {
    PartitionComplete(books, net, k);
    calc {
      |good| + |error|;
      |multiset(BooksOf(good))| + |multiset(error)|;
      |multiset(Succeeded(books, net, k)) + multiset(Failing(books, net, k))|;
      |multiset(books)|;
    }
  }

  /** A pass whose records split the batch by the oracle takes the loop from the state
      after k passes to the state after k + 1. */
  lemma PassAdvances(books: seq<Book>, net: Network, k: nat, good: seq<Outcome>, error: seq<Book>,
                     newGood: seq<Outcome>, newError: seq<Outcome>)
    requires Progress(books, net, k, good, error)
    requires multiset(BooksOf(newGood)) + multiset(BooksOf(newError)) == multiset(error)
    requires forall o :: o in newGood ==> o.status && IsOk(net(k, o.book))
    requires forall o :: o in newError ==> !IsOk(net(k, o.book))
    ensures Progress(books, net, k + 1, good + newGood, BooksOf(newError))
  {
    var ok, bad := BooksOf(newGood), BooksOf(newError);
    forall b | b in ok ensures IsOk(net(k, b)) {
      var i :| 0 <= i < |ok| && ok[i] == b;
      assert newGood[i] in newGood;
    }
    forall b | b in bad ensures !IsOk(net(k, b)) {
      var i :| 0 <= i < |bad| && bad[i] == b;
      assert newError[i] in newError;
    }
    PassStep(books, net, k, error, ok, bad);
    BooksOfAppend(good, newGood);
  }

  /** While books are left to retry, not every book has succeeded. */
  lemma StillFailing(books: seq<Book>, net: Network, k: nat, error: seq<Book>)
    requires multiset(error) == multiset(Failing(books, net, k))
    ensures error != [] <==> !AllSucceeded(books, net, k)
  {
    FailingEmptyIff(books, net, k);
    assert |Failing(books, net, k)| == |multiset(error)|;
  }

  /** No pass before the k-th found every book succeeded: the loop's guard held at
      passes 0 .. k-1. */
  ghost predicate Unsettled(books: seq<Book>, net: Network, k: nat) {
    k == 0 || (Unsettled(books, net, k - 1) && !AllSucceeded(books, net, k - 1))
  }

  lemma {:induction false} UnsettledBefore(books: seq<Book>, net: Network, k: nat, j: nat)
    requires Unsettled(books, net, k) && j < k
    ensures !AllSucceeded(books, net, j)
  {
    if j < k - 1 {
      UnsettledBefore(books, net, k - 1, j);
    }
  }

  lemma {:induction false} PassesFromSkips(books: seq<Book>, net: Network, j: nat, k: nat)
    requires j <= k <= MaxAttempts && Unsettled(books, net, k)
    ensures PassesFrom(books, net, j) == PassesFrom(books, net, k)
    decreases k - j
  {
    if j < k {
      UnsettledBefore(books, net, k, j);
      PassesFromSkips(books, net, j + 1, k);
    }
  }

  /** A loop that ran k unsettled passes and then stopped ran PassCount passes. */
  lemma LoopStopsAtPassCount(books: seq<Book>, net: Network, k: nat)
    requires k <= MaxAttempts && Unsettled(books, net, k)
    requires k == MaxAttempts || AllSucceeded(books, net, k)
    ensures k == PassCount(books, net)
  {
    PassesFromSkips(books, net, 0, k);
  }

  /** The first pass probes the input books themselves. */
  lemma FirstBatchIsInput(books: seq<Book>, net: Network, error: seq<Book>)
    requires multiset(error) == multiset(Failing(books, net, 0))
    ensures error == [] <==> books == []
    ensures AllHaveUrl(error) <==> AllHaveUrl(books)
  {
    BeforeFirstPass(books, net);
    assert |error| == |books| by {
      assert |multiset(error)| == |multiset(books)|;
    }
    forall b | b in books ensures b in error {
      assert b in multiset(books);
    }
    forall b | b in error ensures b in books {
      assert b in multiset(error);
    }
  }

  /** A batch misses a URL only on the first pass, and then the input does. */
  lemma BatchUrls(books: seq<Book>, net: Network, k: nat, error: seq<Book>)
    requires multiset(error) == multiset(Failing(books, net, k))
    requires k > 0 ==> AllHaveUrl(books)
    ensures AllHaveUrl(error) <==> AllHaveUrl(books) || k > 0
  {
    if k == 0 {
      FirstBatchIsInput(books, net, error);
    } else {
      RetriedFromInput(books, net, k, error);
    }
  }

  /** The books a pass retries are input books. */
  lemma RetriedFromInput(books: seq<Book>, net: Network, k: nat, error: seq<Book>)
    requires multiset(error) == multiset(Failing(books, net, k))
    ensures forall b :: b in error ==> b in books
    ensures AllHaveUrl(books) ==> AllHaveUrl(error)
  {
    forall b | b in error ensures b in books {
      assert b in multiset(Failing(books, net, k));
      FailingCount(books, net, k, b);
    }
  }

  lemma RemoveAt(s: seq<Book>, i: nat)
    requires i < |s|
    ensures multiset(s) == multiset(s[..i] + s[i + 1..]) + multiset{s[i]}
  {
    assert s == s[..i] + [s[i]] + s[i + 1..];
  }

  lemma RecordAppended(records: seq<Outcome>, o: Outcome)
    ensures multiset(BooksOf(records + [o])) == multiset(BooksOf(records)) + multiset{o.book}
  {
    BooksOfAppend(records, [o]);
  }

  // ---------------------------------------------------------------------------
  // The passes

  /** One pass (app.py:56-62): submit a probe of every book of the batch, and as each
      completes append its record to `new_good` or `new_error` by its status. The order in
      which the probes complete is left open: each step takes any pending one. */
  method RunPass(k: nat, batch: seq<Book>, net: Network) returns (r: Result<PassOutcomes>)
    ensures r.KeyError? <==> !AllHaveUrl(batch)
    ensures r.KeyError? ==> r.key == UrlKey
    ensures r.Ok? ==> multiset(BooksOf(r.value.newGood)) + multiset(BooksOf(r.value.newError))
                      == multiset(batch)
    ensures r.Ok? ==> forall o :: o in r.value.newGood ==> o.status && IsOk(net(k, o.book))
    ensures r.Ok? ==> forall o :: o in r.value.newError ==> !o.status && !IsOk(net(k, o.book))
  {
    var pending := batch;
    ghost var completed: seq<Book> := [];
    var newGood: seq<Outcome> := [];
    var newError: seq<Outcome> := [];
    while pending != []
      invariant multiset(completed) + multiset(pending) == multiset(batch)
      invariant forall b :: b in completed ==> HasUrl(b)
      invariant multiset(BooksOf(newGood)) + multiset(BooksOf(newError)) == multiset(completed)
      invariant forall o :: o in newGood ==> o.status && IsOk(net(k, o.book))
      invariant forall o :: o in newError ==> !o.status && !IsOk(net(k, o.book))
      decreases |pending|
    {
      var i :| 0 <= i < |pending|;
      var b := pending[i];
      RemoveAt(pending, i);
      pending := pending[..i] + pending[i + 1..];
      var result := Check(b, net(k, b));
      if result.KeyError? {
        assert b in multiset(batch);
        return KeyError(result.key);
      }
      var o := result.value;
      completed := completed + [b];
      if o.status {
        RecordAppended(newGood, o);
        newGood := newGood + [o];
      } else {
        RecordAppended(newError, o);
        newError := newError + [o];
      }
    }
    assert multiset(completed) == multiset(batch);
    forall b | b in batch ensures HasUrl(b) {
      assert b in multiset(completed);
    }
    r := Ok(PassOutcomes(newGood, newError));
  }

  /** One iteration of the retry loop (app.py:56-66): run a pass over `error`, append
      its successes to `good` and retry its failures. */
  method RetryPass(books: seq<Book>, net: Network, attempts: nat, good: seq<Outcome>, error: seq<Book>)
    returns (r: Result<Partition>)
    requires Progress(books, net, attempts, good, error)
    requires attempts > 0 ==> AllHaveUrl(books)
    ensures r.KeyError? <==> attempts == 0 && !AllHaveUrl(books)
    ensures r.KeyError? ==> r.key == UrlKey
    ensures r.Ok? ==> Progress(books, net, attempts + 1, r.value.good, r.value.error)
    ensures r.Ok? ==> AllHaveUrl(books) && good <= r.value.good
  {
    BatchUrls(books, net, attempts, error);
    var pass := RunPass(attempts, error, net);
    if pass.KeyError? {
      return KeyError(pass.key);
    }
    var newGood, newError := pass.value.newGood, pass.value.newError;
    PassAdvances(books, net, attempts, good, error, newGood, newError);
    r := Ok(Partition(good + newGood, BooksOf(newError)));
  }

  /** `Book.checkbooks` (app.py:50-69): the books that answered 200 on some pass, and the
      ones still failing when the loop stops, together with the number of passes run. */
  method CheckBooks(books: seq<Book>, net: Network) returns (r: Result<Partition>, attempts: nat)
    ensures r.KeyError? <==> books != [] && !AllHaveUrl(books)
    ensures r.KeyError? ==> r.key == UrlKey
    ensures r.Ok? ==> attempts == PassCount(books, net)
    ensures r.Ok? ==> multiset(BooksOf(r.value.good)) == multiset(Succeeded(books, net, attempts))
    ensures r.Ok? ==> multiset(r.value.error) == multiset(Failing(books, net, attempts))
    ensures r.Ok? ==> forall o :: o in r.value.good ==> o.status
    ensures r.Ok? ==> |r.value.good| + |r.value.error| == |books|
    ensures attempts <= MaxAttempts
    ensures books == [] ==> r == Ok(Partition([], [])) && attempts == 0
  {
    var good: seq<Outcome> := [];
    var error := books;
    attempts := 0;
    BeforeFirstPass(books, net);
    while error != [] && attempts < MaxAttempts
      invariant attempts <= MaxAttempts
      invariant Progress(books, net, attempts, good, error)
      invariant attempts > 0 ==> AllHaveUrl(books)
      invariant Unsettled(books, net, attempts)
      decreases MaxAttempts - attempts
    {
      StillFailing(books, net, attempts, error);
      var pass := RetryPass(books, net, attempts, good, error);
      if pass.KeyError? {
        FirstBatchIsInput(books, net, error);
        return KeyError(pass.key), attempts;
      }
      good, error := pass.value.good, pass.value.error;
      attempts := attempts + 1;
    }
    StillFailing(books, net, attempts, error);
    if attempts == 0 {
      FirstBatchIsInput(books, net, error);
    }
    LoopStopsAtPassCount(books, net, attempts);
    ProgressLengths(books, net, attempts, good, error);
    r := Ok(Partition(good, error));
  }
}
