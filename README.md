# COMP4537 labs: a Dafny model

This project models the core of four small JavaScript programs from the labs
repository and proves properties of the models.

- **Dictionary server** (`Labs/4/app.js`, module `Dictionary`). This is an HTTP API over a write-once
  store of `{word: definition}` pairs. The server keeps a request counter and the
  date of the last insertion. `GET /api/definitions/?word=…` looks a word up.
  `POST` adds a pair unless the word is already there. `OPTIONS` answers 204,
  other verbs get 501 and other paths get 404. Every answer except the `OPTIONS` one
  carries the request number.
  The server object (`DictionaryServer`) holds the three fields the source updates.
  Its methods are each proved equal to a pure function over the server state
  (`Insert`, `PostResponse`, `Dispatch`, `Serve`). The lemmas are stated about those functions.
- **Patient service** (`Labs/5/app.js`, module `Patients`). This service builds an
  `INSERT` statement for a list of patients by filling string templates with
  `String.prototype.replace`. It passes client SQL through to the database and maps
  database outcomes to status codes.
  The database is a parameter `exec` that maps a query to a resolved or rejected
  outcome.
- **Memory game** (`Labs/0/js/script.js`, module `MemoryGame`). The game generates
  `rgb(…)` colours, numbers buttons and validates the requested button count. It
  shuffles `n` times, then decides win or lose from the order in which the buttons are
  clicked.
  `GameField`, `Menu` and `Game` are classes whose methods update their fields.
  The random numbers are a parameter `draws`.
- **Notepad** (`Labs/1/js/script.js`, module `Notepad`). A writer page keeps a list
  of `Note` objects and stores their texts in one local-storage slot after each
  change. A reader page rebuilds its list from that slot.
  The slot is a `Storage` object.

Two shared modules hold the JavaScript built-ins that the labs depend on.
`JsString` models `indexOf`, `replace` with a string pattern (only the first
occurrence, with the `$$`, `$&`, `` $` `` and `$'` replacement patterns), `join`,
`Number.prototype.toString` on non-negative integers and string truthiness.
`Wrappers` holds `Option`.

The model follows the code as written in three places. In each one the code
differs from what its names suggest:

- The dictionary's success message uses the `NewEntry` template of
  `Labs/4/lang/en/en.js`. In `Labs/4/app.js:148-151`, `%1` is filled with the date,
  `%2` with the word–definition pair and `%3` with the entry count. The template's
  `%4` is never filled, so the message always ends with `(Total Entries : %4)`.
  See `Dictionary.NewEntryLayout` and `Dictionary.NewEntryKeepsPlaceholder4`.
- `POST /query` in `Labs/5/app.js:203-215` tests `result.errono`. That property never
  exists, so this path always answers 200 with the "successful insert" message,
  even when the database rejects the query. See `Patients.SqlErrorOnQueryPath`.
- `Labs/0/js/script.js:83-85` passes `sort` a comparator that returns `undefined`.
  Every pair therefore compares equal and the stable sort keeps the colours in
  their generated order. See `MemoryGame.SortByEqualKeeps`.

## Model

| member | source | states |
|---|---|---|
| JsString.IndexOf | Labs/4/app.js:148-151 | the index `replace` searches for is the first occurrence of the pattern; there is none exactly when the pattern is absent |
| JsString.Replace | Labs/4/app.js:148-151 | a `replace` whose pattern is absent returns the string unchanged |
| JsString.Substitute | Labs/5/app.js:76 | a replacement text without `$` is inserted verbatim |
| JsString.ReplaceSplice | Labs/0/js/script.js:72 | when no earlier occurrence exists, `replace` splices the expanded replacement exactly where the pattern stood |
| JsString.ReplaceFirst | Labs/0/js/script.js:72 | the same splice with a `$`-free replacement gives `before + rep + after` |
| JsString.ReplaceFirstLead | Labs/5/app.js:76 | a pattern whose first character does not occur before it is replaced in place |
| JsString.ReplaceKeepsSuffix | Labs/4/app.js:148-151 | replacing an occurrence that lies before a suffix leaves that suffix in place |
| JsString.Join | Labs/5/app.js:81 | `join` of no parts is the empty string; it adds no `$` the parts and separator lack |
| JsString.NatToString | Labs/4/app.js:151 | the decimal form of a count is non-empty, all digits, with no leading zero |
| JsString.ParseNatToString | Labs/0/js/script.js:190-198 | parsing the decimal form of `n` gives `n` back |
| JsString.NatToStringPlain | Labs/0/js/script.js:71-72 | a number's decimal form contains no `%` and no `$`, so splicing it cannot create or disturb a placeholder |
| Dictionary.Matching | Labs/4/app.js:22-27 | the filter keeps exactly the entries keyed by the word, and the first one it keeps is the store's first entry keyed by the word; it is non-empty exactly when the word is stored |
| Dictionary.GetDefinition | Labs/4/app.js:44-57 | a definition is returned exactly when some entry is keyed by the word (case-sensitive), and it is the definition of the first such entry; otherwise null |
| Dictionary.AsMapHolds | Labs/4/app.js:30-38 | with one entry per word, the store viewed as a map holds exactly the stored pairs |
| Dictionary.GetDefinitionIsMapLookup | Labs/4/app.js:44-57 | in a store with one entry per word, `getDefinition` is a map lookup |
| Dictionary.Insert | Labs/4/app.js:20-40 | for any word and definition when the word is stored, and for JSON-safe ones when it is new: a stored word is refused and nothing changes; a new word is appended with `lastUpdated` set to the date; words stay unique; the map gains exactly that pair; the counter is untouched |
| Dictionary.DictionaryServer.AddDefinition | Labs/4/app.js:20-40 | the server's fields change exactly as `Insert` says and it returns `Insert`'s verdict |
| Dictionary.NewEntryMessage | Labs/4/app.js:148-151 | the success message is the `NewEntry` template with its first `%1`, then its first `%2`, then its first `%3` replaced; its shape is stated by the next two rows |
| Dictionary.NewEntryKeepsPlaceholder4 | Labs/4/app.js:148-151 | whatever is spliced in, the success message ends with the template's unfilled `(Total Entries : %4)` |
| Dictionary.NewEntryLayout | Labs/4/app.js:148-151 | for texts without `%` or `$`, the date lands in the "Request #" slot, the pair in the "updated on" slot and the entry count in the "New Entry" slot |
| Dictionary.GetResponse | Labs/4/app.js:106-133 | a missing or empty word gives 400, an unknown word 404, a known word 200 with its stored definition; each answer carries the request number |
| Dictionary.PostResponse | Labs/4/app.js:136-174 | 200 exactly for a new word with both fields truthy; otherwise 400 with the state unchanged; the counter is untouched and always reported |
| Dictionary.Dispatch | Labs/4/app.js:67-103 | only a POST can change the state; the counter is untouched and every answer has a body reporting it |
| Dictionary.Serve | Labs/4/app.js:177-214 | the request callback: OPTIONS first, then the counter, then the path, then `Dispatch`; its outcomes are stated by the `Serve…` lemmas below |
| Dictionary.ServeOptions | Labs/4/app.js:186-190 | OPTIONS answers 204 with no body and changes no state, not even the counter |
| Dictionary.ServeCountsOnce | Labs/4/app.js:192-193 | every other request increments the counter by exactly one and its answer carries the new count |
| Dictionary.ServeRouting | Labs/4/app.js:196-209 | a path other than the API path gets 404 whatever the verb; only a POST on the API path can change the store or the date |
| Dictionary.ServeUnimplemented | Labs/4/app.js:89-101 | on the API path, a verb other than OPTIONS, GET and POST gets 501 with the bad-request message, and only the counter changes |
| Dictionary.ServeGet | Labs/4/app.js:106-133 | the three outcomes of a GET on the API path, in terms of the stored entries |
| Dictionary.ServePost | Labs/4/app.js:136-174 | a POST without both fields gives 400; a duplicate word gives 400 with the warning and leaves the store alone; a new word is appended, the date recorded and 200 returned with the filled message |
| Dictionary.ServeWriteOnce | Labs/4/app.js:20-40 | every request keeps the store write-once: the old entries are a prefix, at most one is added, exactly when a POST answers 200, and words stay unique and non-empty |
| Dictionary.DictionaryServer.constructor | Labs/4/app.js:10-15 | a new server has an empty store, `lastUpdated` "NO UPDATES" and counter 0 |
| Dictionary.DictionaryServer.HandlePost | Labs/4/app.js:136-174 | the fields and the answer are those of `PostResponse` |
| Dictionary.DictionaryServer.HandleRequest | Labs/4/app.js:67-103 | the fields and the answer are those of `Dispatch` |
| Dictionary.DictionaryServer.ServeRequest | Labs/4/app.js:177-214 | the fields and the answer are those of `Serve`, so every `Serve` lemma holds of the server |
| Dictionary.CatExample | Labs/4/app.js:106-133 | after a POST of "cat", a GET of "cat" answers 200 with its definition as request number 2 |
| Dictionary.DuplicateExample | Labs/4/app.js:30-31 | a second POST of the same word answers 400 with the duplicate warning and leaves one entry, even when its definition contains quotes |
| Patients.Tuple | Labs/5/app.js:76 | a patient's tuple is the values template with its first `%1` replaced by the name, then its first `%2` by the date of birth |
| Patients.TupleCloses | Labs/5/app.js:76 | whatever the fields hold, every tuple ends with the template's ` 00:00:00')` |
| Patients.Tuples | Labs/5/app.js:74-78 | one values tuple per patient, in order |
| Patients.NameFilled | Labs/5/app.js:76 | filling `%1` of the values template with a `$`-free name leaves the rest of the template in place |
| Patients.TupleOfPlain | Labs/5/app.js:76 | for a patient whose fields contain no `%` or `$`, the tuple is `('name', 'dateOfBirth 00:00:00')` |
| Patients.TupleOfNameWithPlaceholder | Labs/5/app.js:76 | a name that contains `%2` receives the date of birth at that spot, and the template's own `%2` stays in the tuple |
| Patients.InsertStatement | Labs/5/app.js:80-82 | the statement is the INSERT template with its first `%1` replaced by the tuples joined with commas |
| Patients.StatementShape | Labs/5/app.js:81-82 | the statement is the INSERT head, the joined tuples with `$` patterns expanded, and the tail ` ;` |
| Patients.StatementOfNoPatients | Labs/5/app.js:74-82 | an empty list gives a statement with no VALUES tuples |
| Patients.PlainTuples | Labs/5/app.js:74-78 | plain patients give their intended tuples, and the joined tuples hold no `$` |
| Patients.StatementOfPlain | Labs/5/app.js:74-82 | for plain patients the statement is the head, the intended tuples joined by commas, and the tail |
| Patients.InsertResult | Labs/5/app.js:85-90 | the insert yields no result exactly when the database rejects the statement, and otherwise yields the resolved value |
| Patients.InsertPatients | Labs/5/app.js:70-92 | the loop builds exactly `InsertStatement(patients)` and the result is `InsertResult` |
| Patients.HandleGet | Labs/5/app.js:162-184 | missing or empty SQL gives 400; a failure with a truthy `errno` gives 400 with the SQL message; otherwise 200 with the database value |
| Patients.HandlePost | Labs/5/app.js:186-223 | `/insert` answers 200 exactly when the statement resolves, else 500 with the DB error; `/query` always answers 200; other paths 404 |
| Patients.Serve | Labs/5/app.js:237-258 | OPTIONS gives 204 before dispatch; GET and POST go to their handlers; any other verb gives 501 with the bad-request message |
| Patients.HandleRequest | Labs/5/app.js:126-159 | the handler's answer is `Serve`'s: GET to `handleGet`, POST to `handlePost` on the URL's path, any other verb 501 |
| Patients.GetIgnoresPath | Labs/5/app.js:141-145 | a GET's answer does not depend on its path or body |
| Patients.SqlErrorOnQueryPath | Labs/5/app.js:203-215 | the same failing SQL gives 400 through GET but 200 through `POST /query` |
| Patients.RunQuery | Labs/5/app.js:226-234 | the value the query settles with is returned whether the promise resolved or rejected |
| Patients.RunQueryConflates | Labs/5/app.js:226-234 | a rejection and a resolution with the same value give the caller the same result |
| Patients.GetReturnsOtherRejections | Labs/5/app.js:226-234 | a rejection without `errno` is returned as data with 200 |
| MemoryGame.ColourLayout | Labs/0/js/script.js:65-78 | each colour is `rgb(r, g, b)` with the three channel values in order |
| MemoryGame.ChannelBounds | Labs/0/js/script.js:71 | channel `i` lies in `[20 + 10i, 204 + 10i]` |
| MemoryGame.Colours | Labs/0/js/script.js:65-78 | one colour per button |
| MemoryGame.GenerateColour | Labs/0/js/script.js:67-72 | the three replacements of the inner loop produce exactly colour `i` of its three draws |
| MemoryGame.GenerateRandomColours | Labs/0/js/script.js:65-78 | the nested loops produce exactly `Colours(n, draws)` |
| MemoryGame.GeneratedColours | Labs/0/js/script.js:65-78 | every generated colour has channels in their bands |
| MemoryGame.InsertBy | Labs/0/js/script.js:83-85 | one step of a stable insertion sort: the element passes earlier ones only while the comparator says they are greater; the length grows by one |
| MemoryGame.SortBy | Labs/0/js/script.js:83-85 | `sort` as a stable insertion sort under the given comparator; the length is kept |
| MemoryGame.InsertByPermutes | Labs/0/js/script.js:83-85 | each insertion step of the sort adds exactly the inserted colour |
| MemoryGame.SortByPermutes | Labs/0/js/script.js:83-85 | sorting permutes the colours: each keeps its number of occurrences |
| MemoryGame.InsertByEqualAppends | Labs/0/js/script.js:83-85 | under a comparator that always returns undefined, insertion appends |
| MemoryGame.SortByEqualKeeps | Labs/0/js/script.js:83-85 | the stable sort with that comparator leaves the order unchanged |
| MemoryGame.GameField.constructor | Labs/0/js/script.js:59-62 | a new field has no buttons, no shuffles and is not clickable |
| MemoryGame.NumberButtons | Labs/0/js/script.js:86-90 | the rebuilt array holds button `i` at index `i` for i = 1 .. n, numbered `i` with colour `i - 1`, and nothing else |
| MemoryGame.GameField.GenerateButtons | Labs/0/js/script.js:81-91 | the array holds button `i` at index `i` for i = 1 .. n, numbered `i` with the colour generated at position `i - 1`; the new buttons have no click listeners |
| MemoryGame.GameField.ShuffleButtons | Labs/0/js/script.js:115-126 | one more shuffle; the buttons are unchanged |
| MemoryGame.GameField.MakeButtonsClickable | Labs/0/js/script.js:103-112 | the buttons become clickable; nothing else changes |
| MemoryGame.GameField.ClearBoard | Labs/0/js/script.js:136-139 | the buttons are removed, and with them their click listeners |
| MemoryGame.ValidInput | Labs/0/js/script.js:152-155 | the pattern `^([3-7]{1})$`: exactly one character, a digit from 3 to 7 |
| MemoryGame.UserInput | Labs/0/js/script.js:190-198 | input is accepted exactly when it is one digit from 3 to 7, and then the value is that number; otherwise -1 |
| MemoryGame.DigitRoundTrip | Labs/0/js/script.js:152-155 | a valid input parses to a number in `[3, 7]` whose decimal form is the input |
| MemoryGame.Menu.constructor | Labs/0/js/script.js:145-149 | a new menu is blank with a hidden, empty input |
| MemoryGame.Menu.ShowStartMenu | Labs/0/js/script.js:166-178 | the start menu is shown with an empty, visible input |
| MemoryGame.Menu.ShowGameEndMenu | Labs/0/js/script.js:183-187 | the end menu shows the given message and hides the input |
| MemoryGame.Verdict | Labs/0/js/script.js:250-259 | win when the counter reached the button count; otherwise lose on a wrong number, continue on the right one |
| MemoryGame.WrongFinalClickWins | Labs/0/js/script.js:250-259 | on the last click the game is won whatever button is clicked |
| MemoryGame.NoEarlyMistakeWins | Labs/0/js/script.js:250-259 | clicking buttons `order+1 … n-1` in order wins at the last click |
| MemoryGame.FirstMistakeLoses | Labs/0/js/script.js:250-259 | the first wrong click before the last loses the game |
| MemoryGame.Game.constructor | Labs/0/js/script.js:204-209 | a new game has a fresh field and menu, no buttons and counters at 0 |
| MemoryGame.Game.Play | Labs/0/js/script.js:212-216 | the board is cleared (nothing is clickable), the counter reset and the start menu shown |
| MemoryGame.Game.PressStart | Labs/0/js/script.js:167-173 | a valid input starts a game with that many new, not yet clickable buttons; an invalid one changes nothing |
| MemoryGame.Game.StartGame | Labs/0/js/script.js:220-228 | the button count is set and new buttons, not yet clickable, are generated from the draws |
| MemoryGame.Game.ShuffleButtons | Labs/0/js/script.js:231-246 | `n` shuffles (one when `n` is at most 1) and then the buttons are clickable |
| MemoryGame.Game.CheckOrder | Labs/0/js/script.js:250-259 | the counter advances by one; on a `Verdict` the end menu shows it with the input hidden and the board is cleared; otherwise the menu and board are unchanged; the input's value is never touched |
| Notepad.Texts | Labs/1/js/script.js:202-205 | the texts serialised by `storeNotes`: one per note, in list order |
| Notepad.StoredTexts | Labs/1/js/script.js:144-153 | an empty slot yields no texts; a filled one yields its texts |
| Notepad.Without | Labs/1/js/script.js:177-185 | the list with every occurrence of the note removed, the others in order; it is never longer |
| Notepad.WithoutMultiset | Labs/1/js/script.js:177-185 | the removal keeps every other note as often as it was listed and drops every copy of the removed one |
| Notepad.WithoutAbsent | Labs/1/js/script.js:177-185 | removing a note that is not listed changes nothing |
| Notepad.WithoutAt | Labs/1/js/script.js:177-185 | in a list without repeats, removing a note cuts out exactly its position |
| Notepad.Note.constructor | Labs/1/js/script.js:67-75 | a new note has the given text |
| Notepad.Writer.constructor | Labs/1/js/script.js:118-128 | a new writer holds fresh notes with exactly the stored texts |
| Notepad.Writer.GetNotes | Labs/1/js/script.js:144-153 | the stored texts are appended as fresh notes after the existing ones |
| Notepad.Writer.CreateNote | Labs/1/js/script.js:156-164 | a fresh note with the given text |
| Notepad.Writer.AddNote | Labs/1/js/script.js:167-174 | one empty note is appended and the texts are stored |
| Notepad.Writer.RemoveNote | Labs/1/js/script.js:177-185 | the list loses exactly the given note and the texts are stored |
| Notepad.Writer.EditNote | Labs/1/js/script.js:93-98 | the edited note gets the new text, the others keep theirs, and the texts are stored |
| Notepad.Writer.StoreNotes | Labs/1/js/script.js:202-205 | the slot holds the current texts in order |
| Notepad.Reader.constructor | Labs/1/js/script.js:210-220 | a new reader shows exactly the stored texts |
| Notepad.Reader.GetNotes | Labs/1/js/script.js:233-241 | the list is replaced by one fresh note per stored text |
| Notepad.Reader.UpdateNotes | Labs/1/js/script.js:255-259 | after a reload the reader shows exactly the stored texts, with no duplicates from earlier loads |
| Notepad.StoreThenReopen | Labs/1/js/script.js:202-205 | storing and reopening the writer gives back the same texts |
| Notepad.StoreThenRead | Labs/1/js/script.js:233-241 | what the writer stores, the reader shows |

## Left out

- HTTP plumbing is not modelled: sockets, headers, CORS and the collection of a chunked request body. A request is a value, and a response is a status plus a body value.
- `JSON.parse` and `JSON.stringify` are not modelled. A body arrives already parsed into its string fields, and non-string JSON values are not modelled. The exception a malformed body throws is not modelled either.
- Dictionary.Insert: requires, only when the word is new, that the word and definition need no JSON escaping. In that branch the source builds the entry by pasting them into a JSON text (`Labs/4/app.js:35`), and that text cannot be modelled without a JSON parser. A stored word is refused for any text.
- Dictionary.DictionaryServer.AddDefinition: carries the same narrowed precondition as `Dictionary.Insert`.
- Dictionary.Serve: requires JSON-safe fields only for a POST on the API path whose word is new and whose fields are both truthy, the one case that reaches that JSON text.
- Dictionary.ServeCountsOnce: requests are served one at a time. In the source a POST is answered when its body has arrived, so its request number can include requests counted in the meantime, and a GET that arrives in between does not see the pending insertion.
- `getDate` and the clock are not modelled: the date is the parameter `today`.
- Repeated query parameters are not modelled. Node turns them into an array; the model has at most one `word` and one `sql`.
- The MySQL driver, its connection, the environment variables and the `CREATE TABLE` issued before each query (`Labs/5/app.js:100`) are not modelled; the latter is part of `exec`. The database is the function `exec`, and a query's outcome does not depend on earlier queries.
- The Labs/5 message catalogue texts are not modelled: messages are the keys `BadRequest`, `PageNotFound`, `SuccessfulInsert` and `DBError`.
- `Math.random` is not modelled: the random numbers are the parameter `draws`. Button positions, sizes and the `setTimeout` delay between shuffles are not modelled.
- The DOM is not modelled. That covers button elements and their styles, hiding and showing the numbers, removing the click handler, `alert`, and page navigation.
- The `localStorage` API and JSON serialisation are not modelled: the slot is a `Storage` object holding the texts. `updateMessage`, `displayNotes`, the timers that trigger storing or reloading, and the home page are not modelled.
- Notepad.Writer.RemoveNote: requires that no note is listed twice, which holds for every list the writer builds. With a duplicate, the source's loop can skip a copy.
