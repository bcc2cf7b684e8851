# ContactsBook, the student-database console and the folder cleaner — a Dafny model

This project models the logic of three small Python programs from one repository:

* **ContactsBook**, a web service where registered users keep private address books.
  The model covers the contacts repository (listing, lookup, search by field, create,
  update, remove, upcoming birthdays), the users repository, the authentication routes
  (signup, login, e-mail confirmation, confirmation request, refresh-token rotation) and the
  request/response schemas with their length limits and defaults.
* **the console front end** of a student database (`Main.py`). The model covers the
  quote-aware splitting of a command line (`quotas_split`), the keyword tables for actions
  and models (`extract_action`, `extract_model`) and the command interpreter `explain`,
  which turns the words into an order or rejects the line.
* **the folder cleaner** (`clean.py`). The model covers the file-name normaliser
  (transliteration of Cyrillic, everything not alphanumeric becomes `_`), the suffix
  classifier `select_file` with its module-level buckets, the rule that decides where
  `move_files` puts a file, and the deepest-first sort of the folder list.

Layout, one module per file:

| file | module | models |
|---|---|---|
| `wrappers.dfy` | `Wrappers` | `Option` and `Result` |
| `dates.dfy` | `Dates` | `datetime.date`: validity, ordering, `toordinal`, day differences |
| `text.dfy` | `Text` | ASCII `lower`/`upper`, `str.split()`, `int()` on strings |
| `query.dfy` | `Query` | `offset(skip).limit(limit)` and "keeps the scan order" |
| `schemas.dfy` | `Schemas` | the pydantic schemas: limits, defaults, validation |
| `contacts.dfy` | `Contacts` | `repository/contacts.py`; the table is the class `ContactTable` |
| `users.dfy` | `Users` | `repository/users.py`; the table is the class `UserTable` |
| `auth.dfy` | `Auth` | `routes/auth.py`: one pure step function and one method per route |
| `cli.dfy` | `Cli` | `quotas_split`, `extract_action`, `extract_model`, `explain` |
| `clean.dfy` | `Clean` | `normalize`, `select_file`, the move target, the folder sort |

The database is a sequence of rows in scan order, so "the first row matching" and "all
rows matching, in order" mean what they mean for the ORM queries. Each repository
operation is a pure function on that sequence (`AfterUpdate`, `AfterRemove`,
`AfterVerifyEmail`, ...), and the class methods that change the table are proved to
leave exactly that state. Each route is a step function from the rows to the new rows
and a result (`SignupStep`, `LoginStep`, `RefreshStep`, `ConfirmStep`). The route
methods on a `UserTable` are proved equal to those step functions.

Where the behaviour the system is documented to have and the code disagree, the model follows the code:

* In this model, e-mail addresses are unique only because `signup` refuses an address
  that already exists. `create_user` itself does not check, and `update_user` can change
  `verified` freely. Any uniqueness constraint on the database column is not modelled,
  because the table definitions are not part of this model. `SignupKeepsEmailsUnique` proves that signup preserves uniqueness, and
  `VerifiedOnlyByConfirmation` proves that, among the routes, only confirmation can set the
  flag of an existing user.
  No claim is made about `update_user`.
* A refresh token whose subject matches no user makes `refresh_token` read an attribute
  of `None`. That is a server error, modelled as `UnknownSubject` with status 500, not as
  an "invalid token" answer.
* `soon_birthdays` builds `date(today.year, month, day)`. For a contact born on 29 February
  this raises `ValueError` in a non-leap year. It does the same when the birthday has already
  passed and the next year is not a leap year. The model returns `None` in those cases
  (`LeapDayBirthday` states exactly when), and the whole listing fails with it (`Upcoming`).
* The signup route answers with its own detail text ("User successfully created. Check your
  email for confirmation."), not with the schema default "User successfully created".
  Both constants are in the model.

## Model

| member | source | states |
|---|---|---|
| Clean.Normalize | clean_folder/clean_folder/clean.py:47-57 | the loop that masks non-alphanumerics and the translation afterwards produce exactly `Normalized(name)` |
| Clean.NonAlnumToUnderscore | clean_folder/clean_folder/clean.py:49-50 | a character that is not alphanumeric becomes one `_` in place and nothing else around it changes |
| Clean.CyrillicTransliterated | clean_folder/clean_folder/clean.py:52-57 | each of the 37 Cyrillic letters becomes its Latin transcription, and its capital the upper-cased transcription |
| Clean.SignsDeleted | clean_folder/clean_folder/clean.py:7-9 | the hard and soft signs, small and capital, are deleted |
| Clean.PlainNameUnchanged | clean_folder/clean_folder/clean.py:47-57 | a name made of ASCII letters, digits and `_` is left unchanged |
| Clean.NormalizedIsSafe | clean_folder/clean_folder/clean.py:47-57 | every character of a normalised name is `_` or alphanumeric, so it holds no dot and no path separator |
| Clean.MaskThenTranslate | clean_folder/clean_folder/clean.py:48-57 | masking first and translating the whole string afterwards equals normalising character by character |
| Clean.TableEntries | clean_folder/clean_folder/clean.py:52-55 | the translation map sends each small letter to its transcription and each capital to the capitalised transcription; every key lies outside ASCII |
| Clean.TableKeyIsLetter | clean_folder/clean_folder/clean.py:52-55 | every key of the translation map is one of the 37 letters, small or capital |
| Clean.LettersDistinct | clean_folder/clean_folder/clean.py:7 | the 37 small and 37 capital letters are pairwise distinct, so no later map entry overwrites an earlier one |
| Clean.TranslationIsAscii | clean_folder/clean_folder/clean.py:8-9 | every transcription is made of small ASCII letters |
| Clean.StemAndSuffix | clean_folder/clean_folder/clean.py:101-103 | stem and suffix split a name: they concatenate back to it, and a non-empty suffix is a dot followed by at least one non-dot character |
| Clean.Category | clean_folder/clean_folder/clean.py:61-63 | the bucket of a suffix key is always one of the six buckets, and is `unknown` exactly when the key is not in the suffix table |
| Clean.CategoriesAreBuckets | clean_folder/clean_folder/clean.py:11-20 | every category in the suffix table is a key of the file lists and is not `unknown` |
| Clean.NoSuffixIsUnknown | clean_folder/clean_folder/clean.py:61-69 | a file without a suffix is classified as unknown |
| Clean.Sorter.constructor | clean_folder/clean_folder/clean.py:19-23 | six empty buckets, two empty suffix sets, no folders |
| Clean.Sorter.SelectFile | clean_folder/clean_folder/clean.py:60-69 | the file is appended to its category's bucket, and the upper-cased suffix goes to the known set when the table knows it and to the unknown set otherwise |
| Clean.SelectFileGrowsOneBucket | clean_folder/clean_folder/clean.py:65-68 | after selecting a file, exactly one bucket is one file longer and every other bucket is unchanged |
| Clean.Sorter.SortFolders | clean_folder/clean_folder/clean.py:81 | the folder list becomes its stable deepest-first sort and nothing else changes |
| Clean.SortByDepthCorrect | clean_folder/clean_folder/clean.py:81 | the sort is ordered by decreasing depth, is a permutation, and keeps folders of equal depth in their old order (stability of `list.sort`) |
| Clean.InsertPermutes | clean_folder/clean_folder/clean.py:81 | inserting one folder into the sorted list adds exactly that folder and loses none |
| Clean.InsertKeepsOrder | clean_folder/clean_folder/clean.py:81 | inserting one folder into a deepest-first list keeps it deepest-first and adds exactly that folder |
| Clean.MoveTargetShape | clean_folder/clean_folder/clean.py:101-103 | a known file moves directly into `root/category`, an unknown one stays in its own folder; the new name is the normalised stem plus the old suffix; a new name that is empty adds no path component (as with pathlib), so the target is that folder itself |
| Contacts.Select | ContactsBook/repository/contacts.py:169 | a filtered query returns exactly the owner's rows that satisfy the filter, and no more rows than the table has |
| Contacts.SelectIsSubsequence | ContactsBook/repository/contacts.py:153-201 | a filtered query keeps the scan order of the table |
| Contacts.SelectAppend | ContactsBook/repository/contacts.py:169 | filtering distributes over concatenated tables |
| Contacts.GetContacts | ContactsBook/repository/contacts.py:19 | exactly the page of the user's contacts: its length is `min(limit, n - skip)` (0 past the end, all the rest for a negative `limit`, a negative `skip` counting as 0), and it holds the user's contacts from position `skip` on, in order |
| Contacts.FindOwned | ContactsBook/repository/contacts.py:35 | the index of the first row with this id owned by this user, or none when no row matches |
| Contacts.GetContact | ContactsBook/repository/contacts.py:35 | a contact is returned only when it has this id and belongs to this user, and none is returned only when no such row exists |
| Contacts.OwnershipIsolation | ContactsBook/repository/contacts.py:35 | another user asking for the id of someone else's contact gets nothing |
| Contacts.GetContactById | ContactsBook/repository/contacts.py:148-153 | an id that `int()` cannot parse gives an empty list; otherwise the list is the user's contacts with that id |
| Contacts.GetContactsByFirstName | ContactsBook/repository/contacts.py:169 | exactly the user's contacts with that first name |
| Contacts.GetContactsByLastName | ContactsBook/repository/contacts.py:185 | exactly the user's contacts with that last name |
| Contacts.GetContactByEmail | ContactsBook/repository/contacts.py:201 | exactly the user's contacts with that e-mail |
| Contacts.ParseField | ContactsBook/repository/contacts.py:220-229 | only the four field names `id`, `first_name`, `last_name`, `email` select a search |
| Contacts.GetContactsBy | ContactsBook/repository/contacts.py:220-232 | an unknown field gives an empty list; each known field dispatches to its own search; results are always the user's own rows |
| Contacts.AfterUpdate | ContactsBook/repository/contacts.py:80-89 | the first matching row gets the new body with id and owner kept; with no match the table is unchanged |
| Contacts.AfterRemove | ContactsBook/repository/contacts.py:101-105 | the first matching row is deleted and the rest keep their order; with no match the table is unchanged |
| Contacts.ForeignViewUnchanged | ContactsBook/repository/contacts.py:52-105 | creating, updating or removing a contact of one user changes no query result of another user |
| Contacts.OwnChangesVisible | ContactsBook/repository/contacts.py:80-105 | after an update the contact reads back with the new body; after a remove it is gone |
| Contacts.ContactTable.constructor | ContactsBook/repository/contacts.py:52-64 | an empty table whose next id is 1 |
| Contacts.ContactTable.CreateContact | ContactsBook/repository/contacts.py:52-64 | a new row with the next id and the caller as owner is appended, and it reads back by id |
| Contacts.ContactTable.UpdateContact | ContactsBook/repository/contacts.py:80-89 | the table becomes `AfterUpdate`; the result is none exactly when the user has no contact with that id, else the updated contact |
| Contacts.ContactTable.RemoveContact | ContactsBook/repository/contacts.py:101-105 | returns what `get_contact` would have returned, the table becomes `AfterRemove`, and the contact no longer reads back |
| Contacts.NextBirthday | ContactsBook/repository/contacts.py:126-128 | the next birthday is a valid date with the same month and day, not before today, in this year or the next |
| Contacts.BirthdayDistance | ContactsBook/repository/contacts.py:126-129 | the number of days to the next birthday is between 0 and 365, and 0 exactly when today is the birthday |
| Contacts.OrdinaryBirthdayDefined | ContactsBook/repository/contacts.py:126-128 | for every birthday other than 29 February the distance is defined |
| Contacts.LeapDayBirthday | ContactsBook/repository/contacts.py:126-128 | for a 29 February birthday the computation fails exactly when this year, or the next year once the day has passed, is not a leap year |
| Contacts.LeapDayBirthdayExample | ContactsBook/repository/contacts.py:126-128 | concrete dates: the failures in 2025 and in March 2024, and 19 days on 10 February 2024 |
| Contacts.ClampDays | ContactsBook/repository/contacts.py:121-122 | a window above 365 is cut to 365 and any other window is kept |
| Contacts.Upcoming | ContactsBook/repository/contacts.py:123-132 | the listing fails exactly when some contact's birthday cannot be computed; otherwise it holds exactly the contacts within the window |
| Contacts.UpcomingIsSubsequence | ContactsBook/repository/contacts.py:125-131 | the listing keeps the scan order and is not sorted by proximity |
| Contacts.YearWindowKeepsAll | ContactsBook/repository/contacts.py:121-131 | with the window at 365 every contact is listed |
| Contacts.DaysTo | ContactsBook/repository/contacts.py:126-129 | the days until the next birthday, between 0 and 365, and 0 exactly when today is the birthday; None where `date()` raises |
| Contacts.ContactTable.SoonBirthdays | ContactsBook/repository/contacts.py:108-132 | the loop over the user's contacts returns exactly `Upcoming` over the user's rows with the clamped window |
| Users.UserDBOf | ContactsBook/schemas.py:62-68 | the public view of a user copies id, e-mail, name, roles, avatar, creation time and verified flag |
| Users.GetUsers | ContactsBook/repository/users.py:18 | exactly the page of users: its length is `min(limit, n - skip)` (0 past the end, all the rest for a negative `limit`, a negative `skip` counting as 0), and it holds the rows from position `skip` on, in order |
| Users.FirstIndex | ContactsBook/repository/users.py:34 | `filter(...).first()`: the first row the filter keeps, or none when it keeps none |
| Users.IndexById | ContactsBook/repository/users.py:34 | the first row with this id, or none when there is none |
| Users.IndexByEmail | ContactsBook/repository/users.py:55 | the first row with this e-mail, or none when there is none |
| Users.GetUserByEmail | ContactsBook/repository/users.py:55 | a returned user has this e-mail; none is returned exactly when no user has it |
| Users.IndexByEmailFrame | ContactsBook/repository/users.py:94 | changing a row without changing its e-mail leaves every e-mail lookup unchanged |
| Users.ApplyUpdate | ContactsBook/repository/users.py:36-39 | name, roles, creation time and verified flag come from the body; id, e-mail, password, avatar and refresh token are kept |
| Users.AfterUpdateUser | ContactsBook/repository/users.py:34-41 | the first user with the id is updated; with no match the table is unchanged |
| Users.AfterVerifyEmail | ContactsBook/repository/users.py:107-110 | the first user with the e-mail becomes verified and nothing else changes |
| Users.VerifyEmailIdempotent | ContactsBook/repository/users.py:107-110 | verifying twice is the same as verifying once, and the user found is verified afterwards |
| Users.AfterRemoveUser | ContactsBook/repository/users.py:124-128 | the first user with the id is deleted and the others keep their order |
| Users.RemovedUserGone | ContactsBook/repository/users.py:124-128 | with unique ids, the removed id is no longer found and ids stay unique |
| Users.IndexOfRow | ContactsBook/repository/users.py:124 | with unique ids, looking up a row's id finds that row |
| Users.UserTable.constructor | ContactsBook/repository/users.py:69-80 | an empty user table whose next id is 1 |
| Users.UserTable.CreateUser | ContactsBook/repository/users.py:69-80 | a new user with the next id, the body's e-mail, password and name, the avatar found (or none) and the column defaults is appended |
| Users.UserTable.UpdateUser | ContactsBook/repository/users.py:34-41 | the table becomes `AfterUpdateUser`; the result is none exactly when the id is unknown, else the updated user |
| Users.UserTable.UpdateToken | ContactsBook/repository/users.py:94-95 | only the stored refresh token of that user changes |
| Users.UserTable.VerifyEmail | ContactsBook/repository/users.py:107-110 | the table becomes `AfterVerifyEmail` |
| Users.UserTable.RemoveUser | ContactsBook/repository/users.py:124-128 | the table becomes `AfterRemoveUser`; the removed user is returned, or none when the id is unknown |
| Users.UserTable.PatchAvatar | ContactsBook/repository/users.py:144-146 | only the avatar of that user changes, and the updated user is returned |
| Auth.SignupStep | ContactsBook/routes/auth.py:32-39 | an existing e-mail gives `409 Account already exists` with nothing changed; otherwise one new user with the hashed password is appended |
| Auth.SignupKeepsEmailsUnique | ContactsBook/routes/auth.py:32-37 | signup preserves uniqueness of e-mails |
| Auth.LoginStep | ContactsBook/routes/auth.py:54-64 | the checks happen in the source's order (unknown e-mail, unconfirmed, wrong password); on success the new refresh token is stored, and nothing but the refresh token of the first user with that e-mail changes |
| Auth.LoginThenRefresh | ContactsBook/routes/auth.py:61-64 | the refresh token handed out by login is accepted by the refresh route |
| Auth.RefreshStep | ContactsBook/routes/auth.py:125-134 | the token is accepted exactly when it equals the stored one, and is then replaced; a stale token clears the stored one; an unknown subject fails with status 500; nothing but the refresh token of the first user with that e-mail changes |
| Auth.ReplayRevokes | ContactsBook/routes/auth.py:128-133 | after a successful refresh the old token is refused, and after that refusal the newly issued token is refused too |
| Auth.ConfirmStep | ContactsBook/routes/auth.py:79-86 | an unknown e-mail is a verification error and changes nothing; a verified user gets "already confirmed" and the table is unchanged; an unverified user gets "confirmed" and the table becomes `AfterVerifyEmail` (only that user is marked verified) |
| Auth.ConfirmMessagesDiffer | ContactsBook/routes/auth.py:84-86 | the "already confirmed" and "confirmed" answers are different texts |
| Auth.ConfirmTwice | ContactsBook/routes/auth.py:79-86 | a second confirmation answers "already confirmed" and changes nothing |
| Auth.VerifiedOnlyByConfirmation | ContactsBook/routes/auth.py:79-86 | login and refresh never change whether any user is verified, and confirmation never takes the flag back |
| Auth.Signup | ContactsBook/routes/auth.py:32-39 | the route's new table and answer are those of `SignupStep`, and a confirmation mail is sent exactly on success |
| Auth.Login | ContactsBook/routes/auth.py:54-64 | the route's new table and answer are those of `LoginStep` |
| Auth.ConfirmEmail | ContactsBook/routes/auth.py:79-86 | the route's new table and answer are those of `ConfirmStep` |
| Auth.RequestEmail | ContactsBook/routes/auth.py:105-110 | an unknown e-mail gets the generic message and no mail; a verified one gets "already confirmed"; an unverified one gets the generic message and a mail |
| Auth.RefreshToken | ContactsBook/routes/auth.py:125-134 | the route's new table and answer are those of `RefreshStep` |
| Schemas.FieldErrors | ContactsBook/schemas.py:121-125 | each length limit (25, 30, 13, 150) and the date check are reported exactly when violated; no errors exactly when the contact conforms |
| Schemas.ValidateContact | ContactsBook/schemas.py:109-126 | a body is accepted unchanged exactly when it conforms, and otherwise rejected with its field errors |
| Schemas.ContactResponseOf | ContactsBook/schemas.py:129-141 | a response carries the base fields unchanged plus the contact and owner ids |
| Schemas.ResponseRoundTrip | ContactsBook/schemas.py:129-141 | splitting a response into ids and base and rebuilding it gives the same response |
| Schemas.MakeTokenModel | ContactsBook/schemas.py:104-106 | the token type defaults to "bearer" |
| Schemas.MakeUserResponse | ContactsBook/schemas.py:81-82 | the detail defaults to "User successfully created" |
| Cli.QuoteIndices | Main.py:68-76 | the positions of the quote characters, in increasing order |
| Cli.QuoteIndicesExact | Main.py:69 | a position is listed exactly when it holds `'` or `"` |
| Cli.SplitQuoted | Main.py:77-82 | an odd number of quotes gives no word list and an empty value; a line without quotes gives the empty value and the whitespace-split line; otherwise the value is the text between the last two quotes and the words are those of the line with the value and its two quotes cut out |
| Cli.ValueIsUnquoted | Main.py:82 | with an even number of quotes, the value contains no quote character |
| Cli.QuotePositions | Main.py:65-75 | the scanning loop ends with `start` after the last opening quote and `end` at the last closing quote |
| Cli.PositionsDecide | Main.py:77-80 | `start > end` exactly when the number of quotes is odd, and `end == 0` with an even count exactly when there are no quotes |
| Cli.QuotasSplit | Main.py:64-82 | the method returns exactly `SplitQuoted` of the line |
| Cli.ExtractAction | Main.py:85-96 | each of the five actions is returned exactly for its three spellings; anything else gives "" |
| Cli.ExtractModel | Main.py:98-109 | each of the five models is returned exactly for its two spellings; anything else gives "" |
| Cli.KeywordsCanonical | Main.py:85-109 | a canonical action or model name maps to itself |
| Cli.FirstOffer | Main.py:118-127 | a slot stays empty exactly when no word offers it a value |
| Cli.FirstOfferIsFirst | Main.py:120-127 | a filled slot holds the value of the first word that offered one |
| Cli.FirstOfferAppend | Main.py:118-127 | reading more words never changes a slot once filled |
| Cli.SwapNeighbours | Main.py:118-127 | swapping two neighbouring words of which at most one offers a value leaves the slot unchanged |
| Cli.ExplainAnyOrder | Main.py:118-127 | swapping two words that do not compete for a slot gives the same order |
| Cli.Decide | Main.py:129-157 | an order is produced exactly when an action is given, a model is given unless the action is `lay`, and the id, field or value that the action needs is present; a `new` order gets field `name` |
| Cli.ExplainSpec | Main.py:112-115 | an odd number of quotes or a line without words gives no order; an order carries the quoted value |
| Cli.Explain | Main.py:112-157 | the interpreter returns exactly the specification's order |
| Cli.ReadWords | Main.py:117-157 | the slot-filling loop and the checks after it return exactly `ExplainWords` |
| Text.Lower | Main.py:119 | lower-casing changes each ASCII capital to its small letter and nothing else |
| Text.WordsAreTokens | Main.py:81 | `split()` yields non-empty words without whitespace |
| Text.WordsCoverText | Main.py:81 | the words concatenate to the line with its whitespace removed |
| Text.WordsEmpty | Main.py:114 | `split()` gives no words exactly when the line is all whitespace |
| Text.ParseIntRoundTrip | ContactsBook/repository/contacts.py:150 | `int()` reads back every integer's decimal form |
| Dates.MakeDate | ContactsBook/repository/contacts.py:126 | constructing a date succeeds exactly when year, month and day form a valid date |
| Dates.OrdinalOrder | ContactsBook/repository/contacts.py:127 | comparing dates is comparing their day numbers, and equal dates have equal day numbers |
| Dates.NextYearDistance | ContactsBook/repository/contacts.py:129 | the days from a date to a date of the following year are the rest of this year plus the day of the next |
| Query.Window | ContactsBook/repository/contacts.py:19 | `offset(skip).limit(limit)` as SQLite runs it: length `min(limit, rows - skip)`, no bound for a negative `limit`, a negative `skip` counting as 0; it holds the rows from `skip` on |
| Query.NegativeBounds | ContactsBook/database/db.py:8 | on the SQLite database a negative offset is no offset and a negative limit returns the whole rest of the table |
| Query.WindowsTile | ContactsBook/repository/users.py:18 | two consecutive pages put together are the page of their combined size |

## Left out

* Input and output: the `print` calls, the console's input loop and `main`, the files
  written by `write_dict`, the directory walk of `view_folder`, folder creation, the
  `file.replace` calls, archive unpacking and removal of empty folders. The model keeps
  the decisions these make, not the effects.
* The database and the ORM: a table is a sequence in scan order, ids come from a counter
  starting at 1, and transactions, sessions and `db.refresh` are not modelled. Rows are
  values, so the model has no aliasing between a fetched row and the table.
* The HTTP layer: status codes appear only as constants of the error type. Rate limiting,
  request parsing, the `base_url` of the confirmation link and the background task queue
  are not modelled; a confirmation mail is returned as a value instead of being sent.
* The authentication service: password hashing and checking, and token creation, are
  parameters of the routes. Decoding a token is not modelled, so the routes take the
  decoded e-mail, and a token that fails to decode is not a case of the model.
* The avatar service: `create_user` receives the avatar found, or none when the lookup
  failed.
* `EmailStr` validation of e-mail addresses.
* Users.UserTable.CreateUser: the roles, creation time, verified flag and refresh token of a
  new user come from column defaults that are not part of this model. They are a
  parameter, so the claim that a new user starts unverified is not stated.
* Users.UserTable.RemoveUser: removing a user does not remove their contacts. The
  database's cascade rule is not part of this model.
* Users.UserTable.UpdateToken and Users.UserTable.PatchAvatar take the id of a user
  that is in the table, where the source takes the user object it already fetched.
* Text.Lower and Text.Upper: only ASCII letters change case, where Python's `lower` and
  `upper` cover all of Unicode (for instance `ß` upper-cases to `SS`). Some non-ASCII
  letters map to ASCII ones: dotless `ı` upper-cases to `I`, long `ſ` to `S`, and the Kelvin
  sign lower-cases to `k`. So in the source the suffix `.zıp` is upper-cased to the archive
  suffix `.ZIP`, and a keyword spelled with a Kelvin sign is lower-cased to a match. The
  model does not recognise these.
* Text.ParseInt: only ASCII digits are read, where Python's `int()` also accepts other
  Unicode decimal digits.
* `str.isalnum` and `str.isdecimal` are parameters (`isAlnum`, `isDecimal`), constrained
  only by the facts the lemmas need about ASCII and the Cyrillic letters.
* Dates and times: `datetime` fields are reduced to a date (birthdays) or an integer
  timestamp (the user's creation time). `date.today()` is a parameter. Years are limited to
  1..9999 as in Python.
* Clean.MoveTargetShape: when a file's new name is empty (a suffixless name made only of
  `ъ` and `ь`), the target is the category folder or the file's own folder. What
  `file.replace` then does to that folder is not modelled.
* Query.Window: negative `skip` and `limit` follow SQLite, the configured database. The
  PostgreSQL behaviour (it rejects negative values) is not modelled. A `skip` or `limit`
  of 2^63 or more does not fit SQLite's 64-bit integers: binding it raises `OverflowError`
  and the route fails with status 500. The model treats such values as ordinary numbers and
  gives a normal page.
* Contacts.GetContactById, Contacts.GetContact, Contacts.ContactTable.UpdateContact and
  Contacts.ContactTable.RemoveContact: ids are unbounded integers, as Python's `int` is. An id
  of 2^63 or more (or below -2^63) makes the SQLite binding raise `OverflowError`, and the route
  fails with status 500. The model answers `[]` or `None` for such an id.
* `create_contact` tests `if contact:` on a freshly made object, which always holds, so the
  model always creates the contact.
* The other programs of the repository (`my_select.py`, `seed.py`, `Application.py`) and the
  contacts and users routes that only forward to the repositories.
