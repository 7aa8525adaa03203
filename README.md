# User store and user form, modelled in Dafny

This project models the two parts of the user-management client that hold logic.

**The user store** (`UsersContext`, file `users_context.dfy`). It models:
- the state `{allUsers, currentPage, loading, error}`;
- the seven reducer actions, and the reducer `Reduce` as a pure function;
- the page count and the visible page, derived from the state with a page size of 6;
- the lookup by id;
- the `Store` class. Its fields are the reducer state. Its operations `Load`, `AddUser`, `EditUser`, `RemoveUser` and `SetPage` each dispatch to the reducer.

The store never clamps the page. `Visible` follows the language's array slicing exactly, including negative bounds, so a page below 1 has a defined (if odd) view.

**The form** (`UserForm`, file `user_form.dfy`). It models:
- string trimming, and the whitespace class shared by trimming and the pattern `\s`;
- the email pattern `^[^\s@]+@[^\s@]+\.[^\s@]+$`, written as an explicit predicate;
- the field-by-field error record built by validation;
- the `UserFormPage` class. It holds the route id, the form fields and the shown errors, with the change handler, `Validate` and the submit step.

When editing, the form is pre-filled from the users the store holds when the form opens. If the user is not found, the fields stay empty.

**The list page's navigation guard** (`UserList`, file `user_list.dfy`). It covers the "previous" and "next" buttons that call `setPage`, and one finding below.

Where the code's behaviour is easy to misread, the model follows the code:
- The initial load fetches one remote page only.
- Ids come from the clock. Here the id is a parameter, `newId`, and id uniqueness is proved only when that id is fresh.
- An update replaces every user carrying the payload's id, not only the first. With unique ids the two agree (`EditUserInPlace`).

## Model

| member | source | states |
|---|---|---|
| `UsersContext.ReplaceById` | techtrial-laberit/src/context/UsersContext.tsx:35-36 | the update keeps length and order, puts the payload exactly where the id matches, and leaves every other element as it was |
| `UsersContext.RemoveById` | techtrial-laberit/src/context/UsersContext.tsx:37-38 | the delete keeps exactly the users with a different id, and it is the identity when no user has that id |
| `UsersContext.GetUserById` | techtrial-laberit/src/context/UsersContext.tsx:89 | the lookup finds nothing exactly when the id is absent; otherwise it returns a stored user with that id |
| `UsersContext.GetUserByIdFirst` | techtrial-laberit/src/context/UsersContext.tsx:89 | the user found is the first one carrying the id |
| `UsersContext.GetUserByIdUnique` | techtrial-laberit/src/context/UsersContext.tsx:89 | with unique ids, every stored user is the one found by its own id |
| `UsersContext.ReduceFrame` | techtrial-laberit/src/context/UsersContext.tsx:25-44 | each action changes only its own fields: a page, a fetched list and an error are stored exactly as given, loading falls to false on a list or an error, and the error changes only on an error action |
| `UsersContext.ReduceAddUser` | techtrial-laberit/src/context/UsersContext.tsx:33-34 | an add grows the list by one, puts the new user at index 0 with the old list after it, and keeps page, loading and error |
| `UsersContext.ReduceDeleteUser` | techtrial-laberit/src/context/UsersContext.tsx:37-38 | after a delete no user has the id and every other user remains; an absent id changes nothing; deleting twice equals deleting once |
| `UsersContext.RemoveByIdAppend` | techtrial-laberit/src/context/UsersContext.tsx:38 | the delete distributes over concatenation, so kept users keep their relative order |
| `UsersContext.RemoveByIdPresent` | techtrial-laberit/src/context/UsersContext.tsx:37-38 | with unique ids, deleting a present id shortens the list by exactly one |
| `UsersContext.RemoveByIdUnique` | techtrial-laberit/src/context/UsersContext.tsx:37-38 | the delete keeps ids unique |
| `UsersContext.ReduceKeepsUniqueIds` | techtrial-laberit/src/context/UsersContext.tsx:25-44 | every action keeps ids unique, given a fresh id for an add and a list with unique ids for a load |
| `UsersContext.TotalPages` | techtrial-laberit/src/context/UsersContext.tsx:83 | the page count is the smallest number of 6-user pages that holds the whole list, which is the rounded-up quotient |
| `UsersContext.VisibleWindow` | techtrial-laberit/src/context/UsersContext.tsx:84-87 | from page 1 on, the visible users are the contiguous window starting at (page-1)*6 and cut at the list's end; its length is min(6, max(0, n-(page-1)*6)) |
| `UsersContext.VisibleBelowFirstPage` | techtrial-laberit/src/context/UsersContext.tsx:84-87 | page 0 shows nothing, and a negative page shows a window counted back from the end of the list |
| `UsersContext.FirstPageView` | techtrial-laberit/src/context/UsersContext.tsx:83-87 | on page 1 of a non-empty list there is at least one page, and the view is the first min(6, n) users |
| `UsersContext.DefaultAvatar` | techtrial-laberit/src/context/UsersContext.tsx:95 | the generated placeholder address is never empty |
| `UsersContext.NewUser` | techtrial-laberit/src/context/UsersContext.tsx:91-96 | the new user has the given id and fields. Its avatar is the override when that is non-empty, else the generated one, so it is never empty |
| `UsersContext.EditedUser` | techtrial-laberit/src/context/UsersContext.tsx:103 | the edited record keeps the existing id, takes the new fields, and keeps the old avatar unless a non-empty override is given |
| `UsersContext.EditUserState` | techtrial-laberit/src/context/UsersContext.tsx:100-104 | an edit keeps the list length, page, loading and error, and it is a no-op when no user has the id |
| `UsersContext.EditUserInPlace` | techtrial-laberit/src/context/UsersContext.tsx:100-104 | with unique ids, an edit rewrites exactly the user at that position and keeps ids unique |
| `UsersContext.Store.constructor` | techtrial-laberit/src/context/UsersContext.tsx:65-70 | the store starts with no users, on page 1, loading, with no error |
| `UsersContext.Store.Dispatch` | techtrial-laberit/src/context/UsersContext.tsx:65 | dispatching replaces the state by the reducer's answer |
| `UsersContext.Store.Load` | techtrial-laberit/src/context/UsersContext.tsx:72-81 | after the load, loading is false and the page is kept. On success the list is the fetched one; on failure the list is kept and the fixed message is the error |
| `UsersContext.Store.AddUser` | techtrial-laberit/src/context/UsersContext.tsx:91-98 | the add dispatches the new user, and the lookup then finds it under the new id. A fresh id keeps ids unique |
| `UsersContext.Store.EditUser` | techtrial-laberit/src/context/UsersContext.tsx:100-104 | the edit reaches exactly the state of `EditUserState` and keeps ids unique |
| `UsersContext.Store.RemoveUser` | techtrial-laberit/src/context/UsersContext.tsx:106-108 | after the remove the id is not found. With unique ids, a present id costs exactly one user and ids stay unique |
| `UsersContext.Store.SetPage` | techtrial-laberit/src/context/UsersContext.tsx:110-112 | the page becomes exactly the argument, with no clamping, and nothing else changes |
| `UserForm.BlankIffAllWhitespace` | techtrial-laberit/src/pages/UserForm.tsx:30-32 | a field is missing after trimming exactly when all its characters are whitespace |
| `UserForm.EmailPatternIffShape` | techtrial-laberit/src/pages/UserForm.tsx:34 | the pattern accepts exactly the emails with no whitespace, exactly one `@` (not first), and a dot after it that is neither the first nor the last character of the domain |
| `UserForm.PatternImpliesNotBlank` | techtrial-laberit/src/pages/UserForm.tsx:32-36 | an email the pattern accepts is never blank, so "obligatorio" and "no es válido" exclude each other |
| `UserForm.CollectErrors` | techtrial-laberit/src/pages/UserForm.tsx:29-36 | a name error is set exactly when that name is blank. A blank email gets "obligatorio"; otherwise it gets "no es válido" exactly when it fails the pattern. The record is empty exactly when the form is valid |
| `UserForm.UserFormPage.constructor` | techtrial-laberit/src/pages/UserForm.tsx:17-26 | when editing, the form is filled from the stored user only if it is found; otherwise it starts empty, with no errors |
| `UserForm.UserFormPage.HandleChange` | techtrial-laberit/src/pages/UserForm.tsx:41-44 | only the named field takes the new value and only its error is cleared; the other fields and errors are unchanged |
| `UserForm.UserFormPage.Validate` | techtrial-laberit/src/pages/UserForm.tsx:28-39 | the recorded errors are those of `CollectErrors`, and the result is true exactly when none was recorded, which is exactly when the form is valid |
| `UserForm.UserFormPage.HandleSubmit` | techtrial-laberit/src/pages/UserForm.tsx:46-57 | an invalid form leaves the store untouched. A valid one gives exactly one store operation: an edit of the route id without avatar, or else an add |
| `UserList.NextAsWrittenLeavesRange` | techtrial-laberit/src/pages/UserList.tsx:77-80 | on every empty list at page 1 (page 1 of 0, loading or failed) the "next" guard as written leaves the button enabled, and pressing it leads out of range to page 2 |
| `UserList.NavigationKeepsRange` | techtrial-laberit/src/pages/UserList.tsx:69-80 | with "next" disabled from the last page on, pressing an enabled button keeps the page in range. Once there is a page, this guard agrees with the written one on every page in range |

## Left out

- The remote service and its fetch. The answer becomes the parameter of `Store.Load`: `Some(list)` for success, `None` for failure. Asynchrony, unmounting before the answer arrives and promise handling are not modelled.
- The clock-based id of a new user. It is the parameter `newId`; uniqueness is stated only for a fresh `newId`.
- The conversion of the route parameter to a number. The route id is given as an integer; a non-numeric parameter behaves like an id no user has.
- Numbers are unbounded integers. Fractional pages and NaN, which the program's floating-point numbers allow, are not modelled; the pages only ever change by one.
- Strings are sequences of Unicode characters, not UTF-16 code units. A character outside the basic plane is one character here and two units in the program. Neither blankness nor the pattern's verdict depends on that.
- The error record does not tell an absent key from a key set to `undefined`. Both are `None`: validation builds a fresh record, and elsewhere only the presence of a message is observed.
- The reducer's `default` branch. The typed actions cannot reach it.
- The `saving` flag, navigation after submit, toasts, the confirm dialog, rendering and the provider hook: they are presentation only.
- The form's pre-fill runs once when the form opens (`UserFormPage.constructor`). A store load that finishes later does not re-fill the form, and the model does not re-fill it either.

## Findings

| source | as written | input that shows it | evidently intended | confidence | as-written member | corrected member |
|---|---|---|---|---|---|---|
| techtrial-laberit/src/pages/UserList.tsx:79 | "next" is disabled only when the page equals the page count | an empty list at page 1, as while the first load is in flight or after it failed: page 1 of 0, "next" enabled, pressing it sets page 2 | disable "next" from the last page on (page at least the page count) | medium, not executed | `UserList.NextAsWrittenLeavesRange` | `UserList.NavigationKeepsRange` |
