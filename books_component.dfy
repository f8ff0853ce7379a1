/** The event handlers of the book-list component (src/Books.jsx). The
    component holds the reducer's current state; each handler dispatches
    actions through the reducer. A call to the remote collection is a
    parameter: the outcome the server gives to the request the handler sends. */
module BooksComponent {
  import opened BookRecords
  import opened BooksReducer

  class Component {
    var state: State

    constructor ()
      ensures state == InitialState()
    {
      state := InitialState();
    }

    /** `dispatch(a)`: the reducer computes the next state. The inline
        handlers of the Add Book and Cancel buttons are exactly this, with
        TOGGLE_ADD_BOOK and CLEAR_CURRENT_BOOK. */
    method Dispatch(a: Action)
      modifies this
      ensures state == Reduce(old(state), a)
    {
      state := Reduce(state, a);
    }

    /** The initial load: the fetched list on success, the error's message
        on failure; either way loading ends. */
    method FetchBooks(response: Remote<seq<Book>>)
      modifies this
      ensures !state.loading
      ensures response.Success? ==> state == old(state).(books := response.value, loading := false)
      ensures response.Failure? ==> state == old(state).(loading := false, error := Some(response.message))
    {
      match response
      case Success(list) => Dispatch(FetchSuccess(list));
      case Failure(message) => Dispatch(FetchError(message));
    }

    /** Shows a book. Only VIEW_BOOK is dispatched; the other mode fields
        keep their values. */
    method ViewBook(book: Book)
      modifies this
      ensures state == old(state).(currentBookView := Some(book))
    {
      Dispatch(BooksReducer.ViewBook(book));
    }

    /** Opens a book in the edit form. Only EDIT_BOOK is dispatched. */
    method EditBook(book: Book)
      modifies this
      ensures state == old(state).(currentBookEdit := Some(book))
    {
      Dispatch(BooksReducer.EditBook(book));
    }

    /** Submits the edit form. The request is the full record with the id
        of the book being edited; without such a book reading its id fails
        and nothing is sent. When the server accepts, the record it returns
        replaces every entry that carries the returned record's id (which
        the server may or may not keep equal to the edited one) and the edit
        is closed; when it fails, nothing is dispatched. */
    method SaveBook(fields: Draft, response: Remote<Book>) returns (request: Option<Book>)
      modifies this
      ensures old(state.currentBookEdit).None? ==> request.None? && state == old(state)
      ensures old(state.currentBookEdit).Some? ==>
        request == Some(WithId(fields, old(state.currentBookEdit).value.id))
      ensures request.Some? && response.Success? ==>
        state == old(state).(books := ReplaceById(old(state.books), response.value), currentBookEdit := None)
      ensures request.Some? && response.Failure? ==> state == old(state)
    {
      if state.currentBookEdit.None? {
        return None;
      }
      request := Some(WithId(fields, state.currentBookEdit.value.id));
      if response.Success? {
        Dispatch(UpdateBook(response.value));
      }
    }

    /** Deletes a book. On success every entry with the id leaves the list;
        on failure nothing is dispatched. */
    method DeleteBook(id: BookId, response: Remote<()>)
      modifies this
      ensures response.Success? ==> state == old(state).(books := RemoveId(old(state.books), id))
      ensures response.Success? ==> !HasId(state.books, id)
      ensures response.Failure? ==> state == old(state)
    {
      if response.Success? {
        Dispatch(BooksReducer.DeleteBook(id));
      }
    }

    /** Submits the add form: the request is the form's fields, without an
        id. On success the server's record is appended after the current
        books with FETCH_SUCCESS, which also ends loading, and the add flag
        is flipped with TOGGLE_ADD_BOOK; on failure nothing is dispatched. */
    method AddBook(fields: Draft, response: Remote<Book>) returns (request: Draft)
      modifies this
      ensures request == fields
      ensures response.Success? ==>
        state == old(state).(books := old(state.books) + [response.value],
                             loading := false,
                             addingBook := !old(state.addingBook))
      ensures response.Failure? ==> state == old(state)
    {
      request := fields;
      if response.Success? {
        Dispatch(FetchSuccess(state.books + [response.value]));
        Dispatch(ToggleAddBook);
      }
    }
  }

  /** Load one book, open it for editing, save a new title that the server
      echoes back: the list holds the saved record and the edit is closed. */
  method LoadEditSave() returns (books: seq<Book>, editing: Option<Book>)
    ensures books == [Book(1, "Dune Messiah", "Frank Herbert", "", "", "", "")]
    ensures editing.None?
  {
    var dune := Book(1, "Dune", "Frank Herbert", "", "", "", "");
    var messiah := dune.(title := "Dune Messiah");
    var c := new Component();
    c.FetchBooks(Success([dune]));
    c.EditBook(dune);
    var request := c.SaveBook(Draft("Dune Messiah", "Frank Herbert", "", "", "", ""), Success(messiah));
    assert request == Some(messiah);
    books, editing := c.state.books, c.state.currentBookEdit;
  }
}
