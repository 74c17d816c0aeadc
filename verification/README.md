# Checkbox group and GitHub user search, modelled in Dafny

The `App` component of this React application holds two small state machines.

- **Checkbox group** (module `CheckboxGroup`, `checkbox_group.dfy`). It keeps a fixed list of five labelled checkboxes and a "select all" flag, `allChecked`. `handleChange` flips the checkbox whose label is the event's id. It then sets the flag by comparing the number of checked items with the list length. `handleAllChecked` gives every item the event's `checked` value and negates the flag.
- **User search** (module `UserSearch`, `user_search.dfy`). `fetchUsers` ignores terms shorter than three characters. For longer terms it requests `https://api.github.com/search/users?q=<term>&page=1&per_page=20`. It then maps the settled request onto the `users` and `message` state cells. The result list shows `message` exactly when `users` is null or undefined.

The list computations (`items.map`, `filter(...).length`) are recursive functions with lemmas about them. The handlers are methods of two classes, `CheckboxGroupComponent` and `SearchComponent`, whose fields are the React state cells. Each method is proved equal to a pure transition function (`AfterChange`, `AfterAllChecked`, `Settled`, `Fetch`). The invariants are proved about those functions, both for one step and for any sequence of events.

The network is not modelled. A request's settlement is an `Outcome` value handed to the transition: a response with a status and a body, or a rejected fetch.

The doc comments in the source state the intent: the flag is true iff every checkbox is checked (src/App.js:21-23), and a rate limit or an error sets `users` to null and shows a message (src/App.js:74-76). Points where the model follows the code as written:

- The bulk toggle sets `allChecked` to the negation of its old value, not to the incoming value. The model keeps this. `AfterAllCheckedConsistency` gives the exact condition under which the invariant survives: on a non-empty list, the incoming value must be the negation of the old flag. The "select all" input is controlled by the flag (`checked={allChecked}`), so a click always delivers that value. `ReachableStatesConsistent` proves that every state the controlled inputs reach is consistent. `AllCheckedWithStaleValueBreaks` shows that any other value breaks the invariant.
- A 2xx response whose body does not parse leaves the state unchanged. The promise from `response.json()` is not returned from the `.then` callback, so its rejection never reaches `.catch`. It is not treated as a generic error.
- A non-2xx status other than 403 leaves the state unchanged.
- A parsed body without an `items` field sets `users` to undefined. The list then shows the default prompt. This is modelled as `users == None`.

## Model

| member | source | states |
|---|---|---|
| CheckboxGroup.CheckedCount | src/App.js:35-38 | the number of checked items never exceeds the list length, so the two comparisons in handleChange cover every case |
| CheckboxGroup.FullCountIffAllChecked | src/App.js:35-40 | the checked count equals the length iff every item is checked, so the flag handleChange sets is exactly "all checked" |
| CheckboxGroup.ToggleLabelAt | src/App.js:27-33 | handleChange's new list has the old length; items labelled with the event id have `checked` flipped and every other item is returned unchanged |
| CheckboxGroup.ToggleLabelKeepsLabels | src/App.js:27-33 | handleChange keeps the length, order and labels; only `checked` fields change |
| CheckboxGroup.ToggleUnknownLabel | src/App.js:27-41 | an id that labels no item leaves the item list identical |
| CheckboxGroup.ToggleTwice | src/App.js:27-33 | two changes of the same checkbox restore the original list |
| CheckboxGroup.SetAllAt | src/App.js:55 | handleAllChecked's new list keeps every label in order and sets every `checked` to the incoming value |
| CheckboxGroup.SetAllAllChecked | src/App.js:55 | after handleAllChecked the list is all-checked iff the incoming value is true or the list is empty; labels are kept |
| CheckboxGroup.AfterAllCheckedConsistency | src/App.js:52-58 | after handleAllChecked on a non-empty list, the flag agrees with the items iff the incoming value is the negation of the old flag, whether or not they agreed before |
| CheckboxGroup.AllCheckedWithStaleValueBreaks | src/App.js:52-58 | from a consistent non-empty state, a bulk toggle whose value equals the current flag leaves the flag disagreeing with the items |
| CheckboxGroup.StepKeepsInvariant | src/App.js:25-59 | one change or controlled bulk toggle on a non-empty list keeps the labels and makes the flag agree with the items |
| CheckboxGroup.ControlledRunKeepsInvariant | src/App.js:25-59 | every sequence of changes and controlled bulk toggles from a consistent non-empty state keeps the labels and the invariant |
| CheckboxGroup.InitialStateConsistent | src/App.js:5-13 | the initial state has five items, two checked, and the flag false, which agrees with the items |
| CheckboxGroup.ReachableStatesConsistent | src/App.js:5-59 | every state reached from the initial one by the controlled inputs keeps the five labels in order and satisfies the invariant |
| CheckboxGroup.CheckboxGroupComponent.constructor | src/App.js:5-13 | the component starts with the five initial items and the flag false, in a consistent state |
| CheckboxGroup.CheckboxGroupComponent.HandleChange | src/App.js:25-42 | the two count comparisons set the flag to "every new item checked"; the new list is the toggled list, with the labels kept |
| CheckboxGroup.CheckboxGroupComponent.HandleAllChecked | src/App.js:52-59 | every item gets the incoming value, labels are kept, the flag is negated, and the state is consistent when the value is the negation of the old flag |
| UserSearch.QueryUrl | src/App.js:82 | the URL is the fixed prefix, the term verbatim and the fixed page-1, 20-per-page suffix |
| UserSearch.QueryUrlRoundTrip | src/App.js:82 | the term can be read back from the URL string, so distinct terms give distinct URL strings |
| UserSearch.Request | src/App.js:79-83 | a request is issued iff the term has at least three characters, and its URL carries that term |
| UserSearch.SettledCases | src/App.js:84-101 | a rejection sets users to null with the error message; 403 sets users to null with the rate-limit message; a parsed 2xx sets users to the body's items with the default prompt; a 2xx whose body does not parse changes nothing; another non-2xx status changes nothing |
| UserSearch.Shown | src/App.js:158-174 | the list shows the message iff users is null or undefined, and otherwise the users |
| UserSearch.SettledKeepsWellFormed | src/App.js:84-101 | every settlement keeps the message one of the three known ones, and the default prompt while a user list is held |
| UserSearch.FailureShowsMessage | src/App.js:90-99 | after a rejected or rate-limited request, the list shows the message that explains it |
| UserSearch.ShortTermsChangeNothing | src/App.js:78-79 | any sequence of calls with terms shorter than three characters leaves users and message as they were |
| UserSearch.RunCallsKeepsWellFormed | src/App.js:78-103 | any sequence of fetchUsers calls keeps the search state invariant |
| UserSearch.ReachableViewsWellFormed | src/App.js:62-103 | every search state reached from the initial one satisfies the invariant |
| UserSearch.SearchComponent.constructor | src/App.js:62-66 | the component starts with users null and the default prompt |
| UserSearch.SearchComponent.HandleOutcome | src/App.js:84-101 | the promise handlers set users and message to the settled state for the outcome, keeping the invariant |
| UserSearch.SearchComponent.FetchUsers | src/App.js:78-103 | no request and no change for short terms; otherwise the query URL is requested and the state becomes the settled state |

## Left out

- Rendering: the JSX, the "Select all"/"Deselect all" label text, `htmlFor` and `key` strings, and the profile links (src/App.js:122-176). Only the choice between the message and the user list is modelled (`Shown`).
- `window.fetch`, `response.json()` and the promise chain. They are replaced by the `Outcome` and `Body` values. JSON bodies whose `items` field is neither an array of users nor absent are not modelled.
- How `fetch` parses the URL. The term is put into the URL without encoding, so a `#`, `&`, `%` or space in the term changes the request actually sent (for instance, everything after `#` becomes a fragment and is not sent). The model promises distinct URL strings, not distinct requests.
- `console.warn` in the catch handler. It is diagnostics only.
- React's `useEffect` scheduling and its batched, asynchronous `useState` updates. Each handler is one atomic transition.
- The ordering of overlapping requests. A response for an older term can still overwrite a newer one in the source. That race comes from asynchrony and is not modelled.
- `handleSearch` and the `searchTerm` cell. They only store the term; the model passes the term straight to `FetchUsers`.
- String length: JavaScript counts UTF-16 code units, while the model counts Dafny characters. The two differ for characters outside the Basic Multilingual Plane.
