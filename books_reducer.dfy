/** The view state of the book list (src/Books.jsx) and the reducer that
    computes each new state from the previous one and a dispatched action. */
module BooksReducer {
  import opened BookRecords

  /** `currentBookView`, `currentBookEdit` and `addingBook` are three
      independent fields: nothing in the reducer keeps them exclusive. */
  datatype State = State(
    books: seq<Book>,
    loading: bool,
    error: Option<string>,
    currentBookView: Option<Book>,
    currentBookEdit: Option<Book>,
    addingBook: bool)

  /** The eight action types the reducer recognises, and `Unrecognised`,
      which stands for every action whose type is none of them (the
      `default` case). */
  datatype Action =
    | FetchSuccess(list: seq<Book>)
    | FetchError(message: string)
    | ViewBook(book: Book)
    | EditBook(book: Book)
    | DeleteBook(id: BookId)
    | ClearCurrentBook
    | UpdateBook(record: Book)
    | ToggleAddBook
    | Unrecognised

  /** The state the component starts from: nothing loaded yet, loading,
      no error, and no book viewed, no book edited, no add form. */
  function InitialState(): (s: State)
    ensures s.books == [] && s.loading && s.error.None?
    ensures s.currentBookView.None? && s.currentBookEdit.None? && !s.addingBook
  {
    State([], true, None, None, None, false)
  }

  /** Each field changes only under the actions that name it. */
  function Reduce(s: State, a: Action): (r: State)
    ensures r.books != s.books ==> a.FetchSuccess? || a.DeleteBook? || a.UpdateBook?
    ensures r.loading != s.loading ==> a.FetchSuccess? || a.FetchError?
    ensures r.error != s.error ==> a.FetchError?
    ensures r.currentBookView != s.currentBookView ==> a.ViewBook? || a.ClearCurrentBook?
    ensures r.currentBookEdit != s.currentBookEdit ==> a.EditBook? || a.ClearCurrentBook? || a.UpdateBook?
    ensures r.addingBook != s.addingBook ==> a.ToggleAddBook? || a.ClearCurrentBook?
  {
    match a
    case FetchSuccess(list) => s.(loading := false, books := list)
    case FetchError(message) => s.(loading := false, error := Some(message))
    case ViewBook(book) => s.(currentBookView := Some(book))
    case EditBook(book) => s.(currentBookEdit := Some(book))
    case DeleteBook(id) => s.(books := RemoveId(s.books, id))
    case ClearCurrentBook => s.(currentBookEdit := None, currentBookView := None, addingBook := false)
    case UpdateBook(record) => s.(books := ReplaceById(s.books, record), currentBookEdit := None)
    case ToggleAddBook => s.(addingBook := !s.addingBook)
    case Unrecognised => s
  }

  /** FETCH_SUCCESS installs the fetched list as it is and ends loading. */
  lemma FetchSuccessInstallsList(s: State, list: seq<Book>)
    ensures Reduce(s, FetchSuccess(list)).books == list
    ensures !Reduce(s, FetchSuccess(list)).loading
    ensures Reduce(s, FetchSuccess(list)) == s.(books := list, loading := false)
  {
  }

  /** FETCH_ERROR ends loading, records the message and keeps the books. */
  lemma FetchErrorKeepsBooks(s: State, message: string)
    ensures Reduce(s, FetchError(message)).books == s.books
    ensures !Reduce(s, FetchError(message)).loading
    ensures Reduce(s, FetchError(message)).error == Some(message)
    ensures Reduce(s, FetchError(message)) == s.(loading := false, error := Some(message))
  {
  }

  /** VIEW_BOOK sets the viewed book and nothing else: an edit or add in
      progress stays active. */
  lemma ViewBookSetsOnlyView(s: State, b: Book)
    ensures Reduce(s, ViewBook(b)) == s.(currentBookView := Some(b))
  {
  }

  /** EDIT_BOOK sets the edited book and nothing else. */
  lemma EditBookSetsOnlyEdit(s: State, b: Book)
    ensures Reduce(s, EditBook(b)) == s.(currentBookEdit := Some(b))
  {
  }

  /** The modes are not exclusive: viewing one book and then editing
      another leaves both active, whatever the add flag was. */
  lemma ViewThenEditKeepsBoth(s: State, v: Book, e: Book)
    ensures Reduce(Reduce(s, ViewBook(v)), EditBook(e)).currentBookView == Some(v)
    ensures Reduce(Reduce(s, ViewBook(v)), EditBook(e)).currentBookEdit == Some(e)
    ensures Reduce(Reduce(s, ViewBook(v)), EditBook(e)).addingBook == s.addingBook
  {
  }

  /** DELETE_BOOK: no entry with the id remains, the others keep their
      values, multiplicity and order, nothing but `books` changes, an id
      that is not there changes nothing, and deleting twice is deleting once. */
  lemma DeleteBookRemovesId(s: State, id: BookId)
    ensures !HasId(Reduce(s, DeleteBook(id)).books, id)
    ensures forall b :: b in Reduce(s, DeleteBook(id)).books <==> b in s.books && b.id != id
    ensures forall b :: multiset(Reduce(s, DeleteBook(id)).books)[b] == if b.id == id then 0 else multiset(s.books)[b]
    ensures Subsequence(Reduce(s, DeleteBook(id)).books, s.books)
    ensures Reduce(s, DeleteBook(id)) == s.(books := Reduce(s, DeleteBook(id)).books)
    ensures !HasId(s.books, id) ==> Reduce(s, DeleteBook(id)) == s
    ensures Reduce(Reduce(s, DeleteBook(id)), DeleteBook(id)) == Reduce(s, DeleteBook(id))
  {
    RemoveIdKeepsOthers(s.books, id);
    RemoveIdIdempotent(s.books, id);
    if !HasId(s.books, id) {
      RemoveIdAbsent(s.books, id);
    }
  }

  /** With unique ids, deleting the id of entry k drops exactly that entry. */
  lemma DeleteBookRemovesOne(s: State, k: nat)
    requires UniqueIds(s.books) && k < |s.books|
    ensures Reduce(s, DeleteBook(s.books[k].id)).books == s.books[..k] + s.books[k + 1..]
  {
    RemoveIdRemovesOne(s.books, k);
  }

  /** UPDATE_BOOK: the length is kept, every entry with the payload's id
      becomes the payload, every other entry stays, the edit is cleared and
      view, add flag, loading and error are untouched. */
  lemma UpdateBookReplacesById(s: State, p: Book)
    ensures |Reduce(s, UpdateBook(p)).books| == |s.books|
    ensures forall i :: 0 <= i < |s.books| && s.books[i].id == p.id ==> Reduce(s, UpdateBook(p)).books[i] == p
    ensures forall i :: 0 <= i < |s.books| && s.books[i].id != p.id ==> Reduce(s, UpdateBook(p)).books[i] == s.books[i]
    ensures p in Reduce(s, UpdateBook(p)).books <==> HasId(s.books, p.id)
    ensures Reduce(s, UpdateBook(p)).currentBookEdit.None?
    ensures Reduce(s, UpdateBook(p)) == s.(books := Reduce(s, UpdateBook(p)).books, currentBookEdit := None)
  {
    ReplaceByIdContains(s.books, p);
  }

  /** With unique ids, the updated list holds exactly one entry with the
      payload's id, the payload itself, at the old entry's position. */
  lemma UpdateBookReplacesOne(s: State, p: Book, k: nat)
    requires UniqueIds(s.books) && k < |s.books| && s.books[k].id == p.id
    ensures Reduce(s, UpdateBook(p)).books == s.books[k := p]
    ensures UniqueIds(Reduce(s, UpdateBook(p)).books)
  {
    ReplaceByIdReplacesOne(s.books, p, k);
    ReplaceByIdKeepsIds(s.books, p);
  }

  /** TOGGLE_ADD_BOOK flips the add flag only, so two toggles are none. */
  lemma ToggleAddBookInvolution(s: State)
    ensures Reduce(s, ToggleAddBook) == s.(addingBook := !s.addingBook)
    ensures Reduce(Reduce(s, ToggleAddBook), ToggleAddBook) == s
  {
  }

  /** CLEAR_CURRENT_BOOK resets the three mode fields, keeps the rest, and
      a second clear changes nothing. */
  lemma ClearCurrentBookResetsModes(s: State)
    ensures Reduce(s, ClearCurrentBook).currentBookEdit.None?
    ensures Reduce(s, ClearCurrentBook).currentBookView.None?
    ensures !Reduce(s, ClearCurrentBook).addingBook
    ensures Reduce(s, ClearCurrentBook).books == s.books
    ensures Reduce(s, ClearCurrentBook).loading == s.loading && Reduce(s, ClearCurrentBook).error == s.error
    ensures Reduce(Reduce(s, ClearCurrentBook), ClearCurrentBook) == Reduce(s, ClearCurrentBook)
  {
  }

  /** An action of any other type is ignored. */
  lemma UnrecognisedIsIdentity(s: State)
    ensures Reduce(s, Unrecognised) == s
  {
  }

  /** Only FETCH_SUCCESS can make two entries share an id: every other
      action keeps the ids of `books` unique, and FETCH_SUCCESS does too
      when the fetched list has unique ids. */
  lemma ReduceKeepsUniqueIds(s: State, a: Action)
    requires UniqueIds(s.books)
    requires a.FetchSuccess? ==> UniqueIds(a.list)
    ensures UniqueIds(Reduce(s, a).books)
  {
    match a
    case DeleteBook(id) => RemoveIdKeepsUniqueIds(s.books, id);
    case UpdateBook(p) => ReplaceByIdKeepsIds(s.books, p);
    case _ =>
  }
}
