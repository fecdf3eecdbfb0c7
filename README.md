# User management dashboard: local collection and form session

This project models the `App` component of a single-page user management
dashboard (`src/App.jsx`). The component keeps a local copy of a remote
"users" collection. It patches that copy after each successful remote call,
and it drives a modal form through three flags and the user under edit.

- `wrappers.dfy` (module `Wrappers`): `Option`, used for `null` and NaN.
- `js_values.dfy` (module `JsValues`): the JSON-like values the component
  handles. It gives the language operations the component relies on:
  - truthiness and `||`;
  - optional member access `?.`;
  - object spread as a right-biased map union;
  - `Number(v) || 0`, with `String(n)` as its partner on integers.
- `user_list.dfy` (module `UserList`): the pure list transformations and
  their lemmas:
  - delete as `filter` by strict id inequality;
  - edit as `map` with a shallow merge;
  - the create path's candidate id and appended entry;
  - the edit-time normalisation of `company`;
  - the Department column label.
- `dashboard.dfy` (module `Dashboard`): class `App`. It holds the five state
  fields `users`, `loading`, `isModalOpen`, `isEditing` and `currentUser`,
  and one method per handler.
  - Each remote call (`axios.get/put/post/delete`) becomes an outcome
    parameter.
  - Each notification the handler shows becomes its return value, with the
    source's exact message.
  - The `try/catch/finally` sequencing is kept: fetch always ends with
    `loading` false, and a submit always ends with the session reset.
  - `Valid()` says that a user is under edit exactly when the form is in
    edit mode. Every handler keeps or establishes it.
  - `Scenarios` walks the component through a few concrete sessions:
    - a fetch whose row shows "N/A" as its department;
    - a failed edit;
    - a delete of an absent id;
    - a create into an empty list that gets id 1.

Ids are `Value`s, and they are compared with strict equality, which here is
structural equality of values. So the string `"3"` is not the number `3`.
When the candidate id is computed, however, `Number("3") || 0` counts as 3.

Four consequences of the code worth knowing:
- The candidate id is `Math.max` over `Number(id) || 0`, plus one. It is not
  clamped at 0, so a list whose only id is -5 gets candidate -4
  (`UserList.CandidateIdExamples`).
- A successful edit replaces EVERY entry whose id equals the edited user's
  id. The replacement is the snapshot taken when the modal opened, merged
  with the submitted values. It is not built from the list entry.
- A delete drops every entry carrying the id. The length drops by one only
  when exactly one entry carries it.
- `newUser = { id: candidate, ...values }` lets a submitted `id` override
  the candidate, and the appended entry then carries that `id`. The form
  never submits one, and the lemmas about the candidate assume it does not.

## Model

| member | source | states |
|---|---|---|
| `JsValues.Spread` | src/App.jsx:63 | the object spread keeps every key of both objects; submitted keys take the submitted value, and the other keys keep the base value |
| `JsValues.StringToInt` | src/App.jsx:66 | `Number(s)` of a string: a blank or empty string reads as 0, and a run of decimal digits reads as its value |
| `JsValues.NumberOrZero` | src/App.jsx:66 | `Number(v) \|\| 0`: every falsy value counts as 0, a number as itself, a run of decimal digits as its value |
| `JsValues.NumberOfIntString` | src/App.jsx:66 | `Number(String(n)) \|\| 0` is `n` for every integer, so the decimal form of an id counts by its value |
| `JsValues.NonNumericString` | src/App.jsx:66 | an id string that starts with neither white space, a sign nor a digit is NaN, so it counts as 0 |
| `UserList.Remove` | src/App.jsx:51 | the delete's result is no longer than the input and holds no entry whose id is strictly equal to the deleted id |
| `UserList.RemoveMembers` | src/App.jsx:51 | an entry is in the result if and only if it was in the list and its id differs from the deleted id |
| `UserList.RemoveLength` | src/App.jsx:51 | the length drops by exactly the number of entries carrying the id |
| `UserList.RemoveKeepsOrder` | src/App.jsx:51 | the surviving entries are a subsequence of the list, so their relative order is kept |
| `UserList.RemoveAbsent` | src/App.jsx:51 | deleting an id that no entry carries leaves the list unchanged |
| `UserList.RemoveKeepsUnique` | src/App.jsx:51 | a list with unique ids still has unique ids after a delete |
| `UserList.ApplyEdit` | src/App.jsx:63 | the edit keeps length and order, replaces each entry whose id equals the edited user's id by the edited user merged with the values, and leaves every other entry unchanged |
| `UserList.EditedEntryFields` | src/App.jsx:63 | an edited entry has exactly the fields of the edited user and of the values; submitted fields win, and fields not submitted keep the edited user's value |
| `UserList.EditKeepsIds` | src/App.jsx:63 | when the values carry no `id`, every entry keeps its id |
| `UserList.EditKeepsUnique` | src/App.jsx:63 | when the values carry no `id`, a list with unique ids keeps unique ids after an edit |
| `UserList.IdNumbers` | src/App.jsx:66 | the mapped list has one number per entry, `Number(id) \|\| 0` of that entry |
| `UserList.Max` | src/App.jsx:66 | `Math.max` of a non-empty list is an element of it that no element exceeds |
| `UserList.MaxId` | src/App.jsx:66 | `maxId` is 0 for an empty list; otherwise it is the `Number(id) \|\| 0` of some entry, and no entry's exceeds it |
| `UserList.CandidateId` | src/App.jsx:66-68 | the candidate is 1 for an empty list; otherwise it exceeds every entry's `Number(id) \|\| 0` and is exactly one more than the largest of them |
| `UserList.CandidateIdFresh` | src/App.jsx:66-68 | no entry already carries the candidate as its numeric id |
| `UserList.CandidateIdExamples` | src/App.jsx:66-68 | ids 1 and 3 give candidate 4; a lone id -5 gives -4, because the maximum is not clamped at 0 |
| `UserList.CandidateIdStringExamples` | src/App.jsx:66-68 | a lone id "x" gives candidate 1, because it counts as 0; a lone id "7" gives 8, because it counts by its value |
| `UserList.NewUserDraft` | src/App.jsx:67-70 | the create request body has the submitted fields plus an `id`, which is the candidate unless the values carry their own `id` |
| `UserList.CreatedEntry` | src/App.jsx:72 | the appended entry has the server's fields, but its id is the request body's id, whatever id the server echoed |
| `UserList.AppendKeepsUnique` | src/App.jsx:66-72 | when the values carry no `id`, the appended entry's id is the candidate, and a list with unique ids keeps unique ids after the append |
| `UserList.NormalizeForEdit` | src/App.jsx:94-97 | the snapshot keeps every field of the user except `company`, which becomes `{name: company?.name \|\| ''}` |
| `UserList.NormalizedDepartment` | src/App.jsx:96 | the snapshot's department is the user's non-empty department name, or `''` when it is absent or empty |
| `UserList.NormalizeKeepsLabel` | src/App.jsx:93-97 | normalising for edit does not change the department label the table shows |
| `UserList.NormalizeIdempotent` | src/App.jsx:93-97 | normalising an already normalised user changes nothing |
| `UserList.DepartmentLabel` | src/App.jsx:114 | the label is never blank; it is the department name when that is truthy, such as a non-empty string, and 'N/A' otherwise |
| `Dashboard.App.constructor` | src/App.jsx:27-31 | the component starts with an empty list, no loading, the modal closed, no edit and no user under edit |
| `Dashboard.App.FetchUsers` | src/App.jsx:35-45 | a successful fetch makes the list exactly the returned data; a failed fetch leaves the list alone and shows 'Error fetching users.'; `loading` is false on exit either way, and the session is unchanged |
| `Dashboard.App.HandleDelete` | src/App.jsx:48-56 | a successful delete applies `Remove`, leaving no entry with the id and dropping the length by the number of matches, in order; it keeps ids unique; a failed one leaves the list alone; each shows its message |
| `Dashboard.App.HandleAddOrEdit` | src/App.jsx:59-82 | a successful edit applies `ApplyEdit`; a successful create appends exactly one `CreatedEntry` after the old list; a failure, or edit mode with no user under edit, leaves the list alone and shows 'Error saving user.'; under `Valid()` a successful edit never takes that error path; with unique ids and no submitted `id`, ids stay unique; afterwards the modal is closed, there is no user under edit, and edit mode is off |
| `Dashboard.App.OpenAddModal` | src/App.jsx:86-90 | the form opens for create: no user under edit, edit mode off, the modal open |
| `Dashboard.App.OpenEditModal` | src/App.jsx:93-100 | the form opens for edit with the user's normalised snapshot, edit mode on and the modal open |
| `Dashboard.App.CancelModal` | src/App.jsx:168 | cancelling closes the modal and changes nothing else |

## Left out

- The HTTP calls (`axios.get`, `put`, `post`, `delete`) become outcome parameters. The network, the request URLs and the PUT response body are not modelled. The create request body is modelled as `UserList.NewUserDraft`.
- Notifications are the returned `Notice` values. Their display by the UI library is not modelled.
- Table, Modal and Form rendering is not modelled. This covers pagination, columns, the modal title, the button label, the form's initial values and its `key`. It is presentation by a library that is not part of this model.
- The form's validation rules (required fields, the e-mail shape) are library behaviour and are not modelled. A handler receives whatever values the form submits.
- The `useEffect` trigger that fetches once on mount is not modelled. Each handler runs as one atomic step, so overlapping calls and stale `users` closures are not modelled. The `loading` value while the GET is pending is set in `FetchUsers` but cannot be observed.
- `UserList.CandidateIdFresh`, `UserList.AppendKeepsUnique`: the candidate is fresh because integers are unbounded. In JavaScript `maxId + 1` is a double, so freshness holds only while the largest id is below 2^53. At 2^53 the addition rounds back to the same value, and the appended entry would duplicate that id.
- Numbers are integers. Fractional ids, NaN, Infinity and floating-point results of `Number(...)` and `Math.max` are not modelled.
- `JsValues.StringToInt`: reads only optionally signed decimal digits surrounded by white space. Hexadecimal, octal and binary prefixes, exponents, fractions and "Infinity" read as NaN, so they count as 0 where JavaScript would give a number.
- `Value` has no array case. `Number` of an object is NaN in the model; JavaScript reads some arrays and objects with a custom `valueOf` as numbers.
- The GET response is taken to be an array of plain objects. A non-array body, or a `null` entry, would make a later `users.filter` or `user.id` throw and show the handler's error notice. The model does not capture that.
- Strict equality of two objects is reference identity in JavaScript, but the model compares them structurally. Ids in the collection are primitives, where the two agree.
- Objects are maps, so the order of their keys is not modelled. The server's response to a POST is taken to be a plain object; spreading a non-object response is not modelled.
