# Book list view state

A model of the client-side core of a single-page book catalogue: the React
component `Books` keeps a list of book records fetched from a REST
collection, plus three fields for the record being viewed, the record
being edited and whether the add form is open. Every dispatched change
goes through one reducer. The event handlers `saveBook`, `deleteBook` and `addBook`
call the server and dispatch to that reducer when the call succeeds. The
repository holds the component twice: in `src/Books.jsx` and, with only
`addBook` among the handlers, in `src/main.jsx`.

- `book_records.dfy`, module `BookRecords`: `Book` (an integer id and
  opaque string fields), `Draft` (the form's fields, no id), `Remote<T>`
  (the outcome of a server call) and the two list operations of the
  reducer. `RemoveId` is the `filter` of `DELETE_BOOK` and `ReplaceById`
  is the `map` of `UPDATE_BOOK`. Each is recursive and specified by what
  it keeps and what it drops.
- `books_reducer.dfy`, module `BooksReducer`: the state record, the
  eight actions plus the default case, `InitialState`, `Reduce`, and one
  lemma per action.
- `books_component.dfy`, module `BooksComponent`: class `Component`
  holding the reducer state. Its methods are the handlers of
  `src/Books.jsx`. Each takes the server's outcome as a parameter and
  returns the request it sends.
- `main_books.dfy`, module `MainBooks`: the reducer of `src/main.jsx`
  written out again and proved equal to the first one on every input, the
  per-action lemmas for this copy, and its `addBook` handler.

The model states what the code does, including where that differs from
what a reader of the interface might expect:
- One might expect a single mode value: browsing, viewing, editing or
  adding. The code keeps three independent fields. `VIEW_BOOK`,
  `EDIT_BOOK` and `TOGGLE_ADD_BOOK` each set one field and leave the
  others alone, so more than one mode can be active at once. The model
  proves this (`ViewThenEditKeepsBoth`) instead of an exclusivity
  invariant.
- A failed fetch does not empty the list. `FETCH_ERROR` leaves `books` as
  it was, which is empty only before anything was loaded.
- A successful save does not close every mode. `UPDATE_BOOK` clears only
  `currentBookEdit`.
- A successful add does not simply close the add form. The code
  dispatches `FETCH_SUCCESS`, which also sets `loading` to false, and then
  `TOGGLE_ADD_BOOK`, which flips `addingBook` rather than clearing it.
- A failed save, add or delete is only logged. No state changes and
  nothing records the error; the model shows this as "state unchanged".
- `saveBook` reads `state.currentBookEdit.id` before sending anything, so
  without an edited book it fails before any request or dispatch.
  `SaveBook` models that case as returning no request and leaving the
  state unchanged.

## Model

| member | source | states |
|---|---|---|
| `BookRecords.RemoveId` | src/Books.jsx:30 | no entry with the deleted id remains and the list never grows (which records survive, how often and in what order is stated by `RemoveIdKeepsOthers`) |
| `BookRecords.ReplaceById` | src/Books.jsx:37-39 | the length is kept; at every position, a record with the payload's id becomes the payload and any other record stays as it was |
| `BookRecords.RemoveIdKeepsOthers` | src/Books.jsx:30 | each surviving record appears as often as in the input and records with the deleted id not at all; the result is an order-preserving subsequence of the input |
| `BookRecords.RemoveIdAbsent` | src/Books.jsx:30 | deleting an id that no entry carries returns the list unchanged |
| `BookRecords.RemoveIdIdempotent` | src/Books.jsx:30 | deleting the same id twice gives the same list as deleting it once |
| `BookRecords.RemoveIdConcat` | src/Books.jsx:30 | deleting from a concatenation is the concatenation of the two deletions, so the survivors keep their relative order |
| `BookRecords.RemoveIdRemovesOne` | src/Books.jsx:30 | when ids are unique, deleting the id of entry k gives the list with exactly entry k cut out |
| `BookRecords.RemoveIdKeepsUniqueIds` | src/Books.jsx:30 | deleting keeps ids unique |
| `BookRecords.AppendKeepsUniqueIds` | src/Books.jsx:126 | appending the server's record keeps ids unique if and only if the list had unique ids and the record's id is new |
| `BookRecords.ReplaceByIdKeepsIds` | src/Books.jsx:37-39 | an update keeps the id at every position, so ids stay unique and the set of ids present is unchanged, in both directions |
| `BookRecords.ReplaceByIdContains` | src/Books.jsx:37-39 | the payload is in the updated list if and only if some entry had its id, and every entry with that id is the payload |
| `BookRecords.ReplaceByIdAbsent` | src/Books.jsx:37-39 | an update for an id no entry carries returns the list unchanged |
| `BookRecords.ReplaceByIdReplacesOne` | src/Books.jsx:37-39 | when ids are unique, updating the id of entry k is overwriting entry k with the payload |
| `BooksReducer.Reduce` | src/Books.jsx:17-47 | each field changes only under the actions that write it: `books` under FETCH_SUCCESS, DELETE_BOOK and UPDATE_BOOK; `loading` under the two fetch actions; `error` under FETCH_ERROR; `currentBookView` under VIEW_BOOK and CLEAR_CURRENT_BOOK; `currentBookEdit` under EDIT_BOOK, CLEAR_CURRENT_BOOK and UPDATE_BOOK; `addingBook` under TOGGLE_ADD_BOOK and CLEAR_CURRENT_BOOK |
| `BooksReducer.InitialState` | src/Books.jsx:8-15 | the initial state has no books, is loading, has no error and no active view, edit or add form |
| `BooksReducer.FetchSuccessInstallsList` | src/Books.jsx:19-20 | FETCH_SUCCESS sets `books` to exactly the payload, in order, sets `loading` to false and changes nothing else |
| `BooksReducer.FetchErrorKeepsBooks` | src/Books.jsx:21-22 | FETCH_ERROR sets `loading` to false, stores the message in `error`, keeps `books` and changes nothing else |
| `BooksReducer.ViewBookSetsOnlyView` | src/Books.jsx:23-24 | VIEW_BOOK sets `currentBookView` and leaves every other field, including the edit and add fields, as it was |
| `BooksReducer.EditBookSetsOnlyEdit` | src/Books.jsx:25-26 | EDIT_BOOK sets `currentBookEdit` and leaves every other field as it was |
| `BooksReducer.ViewThenEditKeepsBoth` | src/Books.jsx:23-26 | VIEW_BOOK followed by EDIT_BOOK leaves both the viewed and the edited book set, so the modes are not exclusive |
| `BooksReducer.DeleteBookRemovesId` | src/Books.jsx:27-31 | after DELETE_BOOK no entry has the id; an entry survives exactly when it was present with another id, as often as before; survivors keep their order; only `books` changes; an absent id changes nothing; deleting twice equals deleting once |
| `BooksReducer.DeleteBookRemovesOne` | src/Books.jsx:27-31 | when ids are unique, DELETE_BOOK with the id of entry k removes exactly that entry |
| `BooksReducer.UpdateBookReplacesById` | src/Books.jsx:34-41 | UPDATE_BOOK keeps the length, puts the payload at every position with its id and keeps the others, and places the payload in the list exactly when its id was present; it clears `currentBookEdit` and leaves view, add flag, loading and error as they were |
| `BooksReducer.UpdateBookReplacesOne` | src/Books.jsx:34-41 | when ids are unique and entry k has the payload's id, UPDATE_BOOK overwrites exactly entry k, and ids stay unique |
| `BooksReducer.ToggleAddBookInvolution` | src/Books.jsx:42-43 | TOGGLE_ADD_BOOK negates `addingBook`, changes nothing else, and applying it twice restores the state |
| `BooksReducer.ClearCurrentBookResetsModes` | src/Books.jsx:32-33 | CLEAR_CURRENT_BOOK clears the edited and viewed book and the add flag, keeps books, loading and error, and is idempotent |
| `BooksReducer.UnrecognisedIsIdentity` | src/Books.jsx:44-45 | an action of any other type returns the state unchanged |
| `BooksReducer.ReduceKeepsUniqueIds` | src/Books.jsx:17-47 | every action keeps the ids in `books` unique, provided that a FETCH_SUCCESS payload itself has unique ids |
| `BooksComponent.Component.constructor` | src/Books.jsx:49 | the component starts in the initial state |
| `BooksComponent.Component.Dispatch` | src/Books.jsx:49 | dispatching replaces the state with the reducer's result |
| `BooksComponent.Component.FetchBooks` | src/Books.jsx:57-68 | loading ends either way; on success `books` is the fetched list, in order; on failure `error` holds the message; nothing else changes |
| `BooksComponent.Component.ViewBook` | src/Books.jsx:70-74 | only `currentBookView` changes |
| `BooksComponent.Component.EditBook` | src/Books.jsx:76-81 | only `currentBookEdit` changes |
| `BooksComponent.Component.SaveBook` | src/Books.jsx:83-100 | the request is the form's fields with the id of the edited book, or nothing when no book is being edited; on success every entry with the id of the server's record becomes that record and the edit closes; otherwise the state is unchanged |
| `BooksComponent.Component.DeleteBook` | src/Books.jsx:102-110 | on success the entries with the id are filtered out and none remains; on failure the state is unchanged |
| `BooksComponent.Component.AddBook` | src/Books.jsx:112-132 | the request is the form's fields; on success `books` is the old books followed by the server's record, `loading` is false and `addingBook` is flipped, nothing else changes; on failure the state is unchanged |
| `BooksComponent.LoadEditSave` | src/Books.jsx:57-100 | loading one book, editing it and saving a new title that the server echoes leaves exactly the saved record in the list and closes the edit |
| `MainBooks.InitialState` | src/main.jsx:18-25 | the initial state of src/main.jsx equals that of src/Books.jsx |
| `MainBooks.Reduce` | src/main.jsx:27-57 | the reducer of src/main.jsx computes the same state as that of src/Books.jsx for every state and action |
| `MainBooks.DeleteBookRemovesId` | src/main.jsx:37-41 | DELETE_BOOK in this copy removes every entry with the id, keeps the others as often as before and in their order, and changes only `books` |
| `MainBooks.UpdateBookReplacesById` | src/main.jsx:44-51 | UPDATE_BOOK in this copy keeps the length, replaces the entries with the payload's id, keeps the others and clears `currentBookEdit` |
| `MainBooks.ToggleAddBookInvolution` | src/main.jsx:52-53 | TOGGLE_ADD_BOOK in this copy changes only `addingBook` and undoes itself |
| `MainBooks.ClearCurrentBookResetsModes` | src/main.jsx:42-43 | CLEAR_CURRENT_BOOK in this copy resets the three mode fields and keeps `books` |
| `MainBooks.FetchActionsEndLoading` | src/main.jsx:29-32 | both fetch actions set `loading` to false; FETCH_SUCCESS replaces `books` with the payload, FETCH_ERROR keeps them and stores the message |
| `MainBooks.Component.constructor` | src/main.jsx:59 | this copy's component starts in its initial state |
| `MainBooks.Component.Dispatch` | src/main.jsx:59 | dispatching replaces the state with this copy's reducer result |
| `MainBooks.Component.AddBook` | src/main.jsx:69-86 | on success the server's record is appended after the existing books, `loading` is false and `addingBook` flips; on failure the state is unchanged |

## Left out

- Rendering: the table, the forms, icons and styling (src/Books.jsx:135-306, src/main.jsx:88-175) only display the state.
- HTTP: the axios calls and their URLs are network I/O. Each call is replaced by a `Remote<T>` parameter that holds the server's answer. The response body is not related to the request, because the server decides what it returns.
- Form inputs: the values read through `useRef` are DOM reads. They arrive as a `Draft` parameter. In src/main.jsx the cover image is the chosen file (`files[0]`); the model treats it as an opaque string like the other fields.
- The assignments to `state.currentBookEdit`, `state.currentBookView` and `state.addingBook` outside the reducer (src/Books.jsx:72-73, 79-80, 121-122) mutate React's state object directly. What they do depends on React's rendering, so they are not a defined transition. Only the dispatched actions are modelled, so `ViewBook`, `EditBook` and `AddBook` do not clear the other mode fields.
- Concurrency: handlers run one after another here. Overlapping requests are not modelled. Neither is the `state.books` that `addBook` captures in its closure and that may be stale by the time the server answers (src/Books.jsx:126).
- Logging, the mount timing of `useEffect`, and the `createRoot`/`StrictMode` start-up code (src/main.jsx:1-10) have no state to model.
- src/main.jsx defines no fetch effect and no `saveBook`, and no `viewBook`, `editBook` or `deleteBook` although its markup refers to these three; its edit form is absent. Its component therefore has only `AddBook`.
- The default case of the reducer is the `Unrecognised` action, which stands for every action whose type string is none of the eight the reducer matches; the string itself is not modelled.
- `BookId` is a mathematical integer. Ids are only compared for equality, so their width does not matter.
