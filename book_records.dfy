/** Book records as the remote collection hands them out, and the two list
    operations the reducer applies to the `books` array: removal by id (the
    `filter` of DELETE_BOOK) and replacement by id (the `map` of UPDATE_BOOK). */
module BookRecords {

  datatype Option<+T> = None | Some(value: T)

  /** Outcome of one call to the remote collection: the response body, or
      the message of the error the call was rejected with. */
  datatype Remote<+T> = Success(value: T) | Failure(message: string)

  /** The server-assigned identifier. The component only ever compares ids
      with strict equality, so one type with equality is all it needs. */
  type BookId = int

  /** A book as the server returns it; every field but the id is an opaque string. */
  datatype Book = Book(
    id: BookId,
    title: string,
    author: string,
    genre: string,
    publicationYear: string,
    description: string,
    coverImage: string)

  /** The values read from the form inputs: a book without its id. */
  datatype Draft = Draft(
    title: string,
    author: string,
    genre: string,
    publicationYear: string,
    description: string,
    coverImage: string)

  /** The full record a form submits for an existing book. */
  function WithId(d: Draft, id: BookId): Book {
    Book(id, d.title, d.author, d.genre, d.publicationYear, d.description, d.coverImage)
  }

  predicate HasId(books: seq<Book>, id: BookId) {
    exists b :: b in books && b.id == id
  }

  /** The collection mirrors a server collection in which ids are unique. */
  predicate UniqueIds(books: seq<Book>) {
    forall i, j :: 0 <= i < j < |books| ==> books[i].id != books[j].id
  }

  /** `xs` is `ys` with some entries left out and the rest in their order. */
  predicate Subsequence(xs: seq<Book>, ys: seq<Book>)
    decreases |ys|
  {
    xs == [] ||
    (ys != [] &&
     ((xs[0] == ys[0] && Subsequence(xs[1..], ys[1..])) || Subsequence(xs, ys[1..])))
  }

  /** `books.filter(book => book.id !== id)`: the entries with that id go,
      the others stay. */
  function RemoveId(books: seq<Book>, id: BookId): (r: seq<Book>)
    ensures |r| <= |books|
    ensures !HasId(r, id)
  {
    if books == [] then []
    else
      var rest := RemoveId(books[1..], id);
      if books[0].id != id then [books[0]] + rest else rest
  }

  /** `books.map(book => book.id === p.id ? p : book)`: same length, every
      entry with the id of `p` becomes `p`, every other entry stays. */
  function ReplaceById(books: seq<Book>, p: Book): (r: seq<Book>)
    ensures |r| == |books|
    ensures forall i :: 0 <= i < |books| ==> r[i] == if books[i].id == p.id then p else books[i]
  {
    if books == [] then []
    else [if books[0].id == p.id then p else books[0]] + ReplaceById(books[1..], p)
  }

  /** The survivors of a deletion are the entries with another id, each
      as often as before and in their order. */
  lemma {:induction false} RemoveIdKeepsOthers(books: seq<Book>, id: BookId)
    ensures forall b :: multiset(RemoveId(books, id))[b] == if b.id == id then 0 else multiset(books)[b]
    ensures forall b :: b in RemoveId(books, id) <==> b in books && b.id != id
    ensures Subsequence(RemoveId(books, id), books)
  {
    KeepsMultiplicity(books, id);
    var r := RemoveId(books, id);
    forall b ensures b in r <==> b in books && b.id != id {
      assert b in r <==> multiset(r)[b] > 0;
      assert b in books <==> multiset(books)[b] > 0;
    }
    KeepsOrder(books, id);
  }

  lemma {:induction false} KeepsMultiplicity(books: seq<Book>, id: BookId)
    ensures forall b :: multiset(RemoveId(books, id))[b] == if b.id == id then 0 else multiset(books)[b]
  {
    if books != [] {
      KeepsMultiplicity(books[1..], id);
      assert books == [books[0]] + books[1..];
    }
  }

  lemma {:induction false} KeepsOrder(books: seq<Book>, id: BookId)
    ensures Subsequence(RemoveId(books, id), books)
  {
    if books != [] {
      KeepsOrder(books[1..], id);
      var r := RemoveId(books, id);
      if books[0].id != id {
        assert r == [books[0]] + RemoveId(books[1..], id);
        assert r[1..] == RemoveId(books[1..], id);
      }
    }
  }

  /** Deleting an id that no entry carries leaves the list as it was. */
  lemma {:induction false} RemoveIdAbsent(books: seq<Book>, id: BookId)
    requires !HasId(books, id)
    ensures RemoveId(books, id) == books
  {
    if books != [] {
      assert books[0] in books;
      assert !HasId(books[1..], id) by {
        forall b | b in books[1..] ensures b.id != id {
          assert b in books;
        }
      }
      RemoveIdAbsent(books[1..], id);
      assert books == [books[0]] + books[1..];
    }
  }

  /** Deleting the same id twice is deleting it once. */
  lemma RemoveIdIdempotent(books: seq<Book>, id: BookId)
    ensures RemoveId(RemoveId(books, id), id) == RemoveId(books, id)
  {
    RemoveIdAbsent(RemoveId(books, id), id);
  }

  /** Filtering distributes over concatenation, which is what keeps the
      survivors in their relative order. */
  lemma {:induction false} RemoveIdConcat(xs: seq<Book>, ys: seq<Book>, id: BookId)
    ensures RemoveId(xs + ys, id) == RemoveId(xs, id) + RemoveId(ys, id)
  {
    if xs == [] {
      assert xs + ys == ys;
    } else {
      assert (xs + ys)[1..] == xs[1..] + ys;
      assert (xs + ys)[0] == xs[0];
      RemoveIdConcat(xs[1..], ys, id);
    }
  }

  /** When ids are unique, deleting the id of entry k removes exactly that entry. */
  lemma {:induction false} RemoveIdRemovesOne(books: seq<Book>, k: nat)
    requires UniqueIds(books)
    requires k < |books|
    ensures RemoveId(books, books[k].id) == books[..k] + books[k + 1..]
  {
    var id, tail := books[k].id, books[1..];
    if k == 0 {
      NoIdAfter(books, 0);
      RemoveIdAbsent(tail, id);
    } else {
      assert books[0].id != id;
      assert tail[k - 1] == books[k];
      RemoveIdRemovesOne(tail, k - 1);
      assert books[..k] == [books[0]] + tail[..k - 1];
      assert books[k + 1..] == tail[k..];
    }
  }

  lemma NoIdAfter(books: seq<Book>, k: nat)
    requires UniqueIds(books) && k < |books|
    ensures !HasId(books[k + 1..], books[k].id)
  {
    forall b | b in books[k + 1..] ensures b.id != books[k].id {
      var i :| 0 <= i < |books[k + 1..]| && books[k + 1..][i] == b;
      assert books[k + 1 + i] == b;
    }
  }

  /** Deleting never makes two entries share an id. */
  lemma {:induction false} RemoveIdKeepsUniqueIds(books: seq<Book>, id: BookId)
    requires UniqueIds(books)
    ensures UniqueIds(RemoveId(books, id))
  {
    if books != [] {
      var rest := RemoveId(books[1..], id);
      assert UniqueIds(books[1..]);
      RemoveIdKeepsUniqueIds(books[1..], id);
      if books[0].id != id {
        NoIdAfter(books, 0);
        RemoveIdKeepsOthers(books[1..], id);
        assert !HasId(rest, books[0].id);
        UniqueIdsCons(books[0], rest);
      }
    }
  }

  lemma UniqueIdsCons(b: Book, rest: seq<Book>)
    requires UniqueIds(rest) && !HasId(rest, b.id)
    ensures UniqueIds([b] + rest)
  {
    var r := [b] + rest;
    forall i, j | 0 <= i < j < |r| ensures r[i].id != r[j].id {
      assert r[j] == rest[j - 1];
      if i == 0 {
        assert rest[j - 1] in rest;
      } else {
        assert r[i] == rest[i - 1];
      }
    }
  }

  /** Appending a record keeps the ids unique exactly when its id is new. */
  lemma AppendKeepsUniqueIds(books: seq<Book>, record: Book)
    ensures UniqueIds(books + [record]) <==> UniqueIds(books) && !HasId(books, record.id)
  {
    var r := books + [record];
    if UniqueIds(r) {
      assert UniqueIds(books) by {
        forall i, j | 0 <= i < j < |books| ensures books[i].id != books[j].id {
          assert r[i] == books[i] && r[j] == books[j];
        }
      }
      forall b | b in books ensures b.id != record.id {
        var i :| 0 <= i < |books| && books[i] == b;
        assert r[i] == b && r[|books|] == record;
      }
    }
    if UniqueIds(books) && !HasId(books, record.id) {
      forall i, j | 0 <= i < j < |r| ensures r[i].id != r[j].id {
        if j == |books| {
          assert r[i] == books[i];
          assert books[i] in books;
        }
      }
    }
  }

  /** Every id is where it was: the replacement has the id of what it replaces. */
  lemma ReplaceByIdKeepsIds(books: seq<Book>, p: Book)
    ensures forall i :: 0 <= i < |books| ==> ReplaceById(books, p)[i].id == books[i].id
    ensures UniqueIds(books) ==> UniqueIds(ReplaceById(books, p))
    ensures forall id :: HasId(ReplaceById(books, p), id) <==> HasId(books, id)
  {
    var r := ReplaceById(books, p);
    forall id ensures HasId(r, id) <==> HasId(books, id) {
      if HasId(r, id) {
        var b :| b in r && b.id == id;
        var i :| 0 <= i < |r| && r[i] == b;
        assert books[i] in books;
      }
      if HasId(books, id) {
        var b :| b in books && b.id == id;
        var i :| 0 <= i < |books| && books[i] == b;
        assert r[i] in r;
      }
    }
  }

  /** The payload ends up in the list exactly when some entry had its id. */
  lemma ReplaceByIdContains(books: seq<Book>, p: Book)
    ensures p in ReplaceById(books, p) <==> HasId(books, p.id)
    ensures forall b :: b in ReplaceById(books, p) && b.id == p.id ==> b == p
  {
    var r := ReplaceById(books, p);
    if p in r {
      var i :| 0 <= i < |r| && r[i] == p;
      assert books[i] in books;
    }
    if HasId(books, p.id) {
      var b :| b in books && b.id == p.id;
      var i :| 0 <= i < |books| && books[i] == b;
      assert r[i] == p;
    }
    forall b | b in r && b.id == p.id ensures b == p {
      var i :| 0 <= i < |r| && r[i] == b;
    }
  }

  /** An update for an id no entry carries changes nothing. */
  lemma ReplaceByIdAbsent(books: seq<Book>, p: Book)
    requires !HasId(books, p.id)
    ensures ReplaceById(books, p) == books
  {
    var r := ReplaceById(books, p);
    forall i | 0 <= i < |books| ensures r[i] == books[i] {
      assert books[i] in books;
    }
  }

  /** With unique ids, an update overwrites exactly the one entry that has its id. */
  lemma ReplaceByIdReplacesOne(books: seq<Book>, p: Book, k: nat)
    requires UniqueIds(books)
    requires k < |books| && books[k].id == p.id
    ensures ReplaceById(books, p) == books[k := p]
  {
  }
}
