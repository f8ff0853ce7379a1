/** The second copy of the book-list component, in src/main.jsx. Its
    reducer and initial state are written out again below as they stand
    there, and each is proved to equal its counterpart in src/Books.jsx on
    every input; the per-action properties are then stated of this copy.
    Of the handlers only `addBook` is defined in this file. */
module MainBooks {
  import opened BookRecords
  import R = BooksReducer

  function InitialState(): (s: R.State)
    ensures s == R.InitialState()
  {
    R.State([], true, None, None, None, false)
  }

  /** This copy computes the same state as the reducer of src/Books.jsx
      for every state and action. */
  function Reduce(s: R.State, a: R.Action): (r: R.State)
    ensures r == R.Reduce(s, a)
  {
    match a
    case FetchSuccess(list) => s.(loading := false, books := list)
    case FetchError(message) => s.(loading := false, error := Some(message))
    case ViewBook(book) => s.(currentBookView := Some(book))
    case EditBook(book) => s.(currentBookEdit := Some(book))
    case DeleteBook(id) => s.(books := RemoveId(s.books, id))
    case ClearCurrentBook => s.(currentBookEdit := None, currentBookView := None, addingBook := false)
    case UpdateBook(record) => s.(books := ReplaceById(s.books, record), currentBookEdit := None)
    case ToggleAddBook => s.(addingBook := !s.addingBook)
    case Unrecognised => s
  }

  /** DELETE_BOOK removes every entry with the id and keeps the others, as
      often as before and in their order. */
  lemma DeleteBookRemovesId(s: R.State, id: BookId)
    ensures !HasId(Reduce(s, R.DeleteBook(id)).books, id)
    ensures forall b :: b in Reduce(s, R.DeleteBook(id)).books <==> b in s.books && b.id != id
    ensures forall b :: multiset(Reduce(s, R.DeleteBook(id)).books)[b] == if b.id == id then 0 else multiset(s.books)[b]
    ensures Subsequence(Reduce(s, R.DeleteBook(id)).books, s.books)
    ensures Reduce(s, R.DeleteBook(id)) == s.(books := Reduce(s, R.DeleteBook(id)).books)
  {
    R.DeleteBookRemovesId(s, id);
  }

  /** UPDATE_BOOK keeps the length, puts the payload in place of every
      entry with its id, keeps the others and clears the edit. */
  lemma UpdateBookReplacesById(s: R.State, p: Book)
    ensures |Reduce(s, R.UpdateBook(p)).books| == |s.books|
    ensures forall i :: 0 <= i < |s.books| && s.books[i].id == p.id ==> Reduce(s, R.UpdateBook(p)).books[i] == p
    ensures forall i :: 0 <= i < |s.books| && s.books[i].id != p.id ==> Reduce(s, R.UpdateBook(p)).books[i] == s.books[i]
    ensures Reduce(s, R.UpdateBook(p)).currentBookEdit.None?
    ensures Reduce(s, R.UpdateBook(p)) == s.(books := Reduce(s, R.UpdateBook(p)).books, currentBookEdit := None)
  {
    R.UpdateBookReplacesById(s, p);
  }

  /** TOGGLE_ADD_BOOK changes only the add flag and undoes itself. */
  lemma ToggleAddBookInvolution(s: R.State)
    ensures Reduce(s, R.ToggleAddBook) == s.(addingBook := !s.addingBook)
    ensures Reduce(Reduce(s, R.ToggleAddBook), R.ToggleAddBook) == s
  {
  }

  /** CLEAR_CURRENT_BOOK resets the three mode fields and keeps the books. */
  lemma ClearCurrentBookResetsModes(s: R.State)
    ensures Reduce(s, R.ClearCurrentBook).currentBookEdit.None?
    ensures Reduce(s, R.ClearCurrentBook).currentBookView.None?
    ensures !Reduce(s, R.ClearCurrentBook).addingBook
    ensures Reduce(s, R.ClearCurrentBook).books == s.books
  {
  }

  /** Both fetch outcomes end loading; only FETCH_SUCCESS replaces the books. */
  lemma FetchActionsEndLoading(s: R.State, list: seq<Book>, message: string)
    ensures !Reduce(s, R.FetchSuccess(list)).loading && Reduce(s, R.FetchSuccess(list)).books == list
    ensures !Reduce(s, R.FetchError(message)).loading && Reduce(s, R.FetchError(message)).books == s.books
    ensures Reduce(s, R.FetchError(message)).error == Some(message)
  {
  }

  /** The component of src/main.jsx: its state and its `addBook` handler. */
  class Component {
    var state: R.State

    constructor ()
      ensures state == InitialState()
    {
      state := InitialState();
    }

    method Dispatch(a: R.Action)
      modifies this
      ensures state == Reduce(old(state), a)
    {
      state := Reduce(state, a);
    }

    /** Submits the add form. The request carries the form's fields, the
        cover image being the chosen file. On success the server's record is
        appended after the current books and the add flag flips; on failure
        nothing is dispatched. */
    method AddBook(fields: Draft, response: Remote<Book>) returns (request: Draft)
      modifies this
      ensures request == fields
      ensures response.Success? ==>
        state == old(state).(books := old(state.books) + [response.value],
                             loading := false,
                             addingBook := !old(state.addingBook))
      ensures response.Failure? ==> state == old(state)
    {
      request := fields;
      if response.Success? {
        Dispatch(R.FetchSuccess(state.books + [response.value]));
        Dispatch(R.ToggleAddBook);
      }
    }
  }
}
