# OpenRPG server core, modelled in Dafny

This project models four self-contained pieces of logic in the OpenRPG Express server and proves properties about them:

- **Item catalogue backends.**
  - `LocalDatabaseService` walks a tree of category directories under `db/item`. It validates each record's field types, skips records it cannot read or validate, and sorts by `id`.
  - `FileUtils` and `DbFileUtils` read the flat directory `db/items`. Any file that cannot be read fails the whole listing. Both look a record up by its file name `<id>.json`.
- **The `server.conf` parser and the cached configuration** of `ConfigUtils`.
- **Account creation** (`createAccount`). Checks run in a fixed order, a duplicate username is refused, and the account is stored with a salted password hash.
- **The item HTTP handlers.** `ItemController` and the stand-alone `getItemById`/`getAllItems` map an identifier and a catalogue outcome to a status and a JSON body.

The file system is an abstract tree (`FileSystem.Node`). A file's content is either a parsed JSON value or unparsable. A directory lists its entries in an arbitrary but fixed order.

The JavaScript built-ins the code relies on are written out in `JsText` and `JsonValues`:

- `trim`, `split`, `indexOf` and `startsWith`.
- `parseInt` with its whitespace, sign, `0x` prefix and digit-prefix rules, with `None` for `NaN`.
- Truthiness, `String(v)`, the UTF-16 `length` of a string, and ToNumber (the conversion `-` and `<` apply), with `None` for `NaN`.
- The `TypeError` of a conversion to a primitive. A parsed object with its own `toString` key has no callable conversion method, so converting it throws. So does converting an array that holds such an object at any depth.
- `Array.prototype.sort`, modelled as a stable insertion sort with `NaN` comparisons read as "equal". A comparison throws when it reads `.id` of a `null` record or converts an `id` that throws.

Code that loops or changes state stays imperative:

- The loaders' `for` loops are methods proved equal to the functions that specify them.
- The cached configuration is a class with a `config` field.
- The accounts collection is a class holding a set.
- `ensureItemsDirectory` updates a `Disk` object.

Three points about the code that the model follows as written:

- The flat backends stop at the first bad file rather than skipping it.
- `LocalDatabaseService` returns the whole parsed object and validates a `type` field, although the `Item` interface in `src/types/Item.ts` declares `typeId`.
- The routes use `ItemController`, which is backed by `FileUtils`. The stand-alone handlers are backed by `DbFileUtils`.

## Model

| member | source | states |
|---|---|---|
| JsText.TrimEmpty | src/utils/configUtils.ts:82-85 | a trimmed line is empty exactly when the line is all whitespace |
| JsText.TrimCore | src/utils/configUtils.ts:82 | `trim` keeps the text from the first to the last non-whitespace character, with only whitespace outside |
| JsText.TrimDropsMargin | src/utils/configUtils.ts:92-93 | removing whitespace margins before trimming does not change the result |
| JsText.IndexOfFinds | src/utils/configUtils.ts:90 | `indexOf` is -1 exactly when the character is absent; otherwise it is the first position holding it |
| JsText.SplitPieces | src/utils/configUtils.ts:79 | no piece of `split('\n')` contains a newline |
| JsText.JoinSplit | src/utils/configUtils.ts:79 | joining the pieces of `split` with the separator gives back the text |
| JsText.SplitJoin | src/utils/configUtils.ts:79 | splitting a join of separator-free pieces gives back the pieces |
| JsText.ParseIntOfIntToString | src/utils/configUtils.ts:37 | `parseInt` of a number's decimal text is that number |
| JsText.ParseIntNaN | src/controllers/ItemController.ts:35-37 | `parseInt` is `NaN` exactly when, after leading whitespace and an optional sign, no decimal digit follows, or `0x` follows with no hexadecimal digit after it |
| JsText.ParseIntOfPaddedDecimal | src/controllers/ItemController.ts:35 | any whitespace, then the decimal text of `n`, then text that does not continue the number, reads as `n` |
| JsText.ParseIntOfHex | src/controllers/ItemController.ts:35 | after a `0x` or `0X` prefix, `parseInt` reads the run of hexadecimal digits as a base-16 number, whatever follows it |
| JsText.StringToNumberOfIntToString | src/utils/fileUtils.ts:26 | the conversion `-` applies to text turns the decimal text of any integer back into that integer |
| JsText.StringToNumberOfBlank | src/utils/fileUtils.ts:26 | blank text converts to 0 |
| JsonValues.ToNumberOfText | src/utils/fileUtils.ts:26 | an integer's text, alone or as the single element of an array, converts to that integer; an empty array converts to 0 |
| JsonValues.ObjectIsNaN | src/utils/fileUtils.ts:26 | an object converts to `NaN` unless it has its own `toString` key, and converting it throws exactly when it has one |
| ConfigUtils.ParseConfigFile | src/utils/configUtils.ts:76-99 | the loop over the lines computes the settings that applying every line's entry in order gives |
| ConfigUtils.BlankOrCommentIgnored | src/utils/configUtils.ts:82-87 | a line that is blank or starts with `#` once trimmed sets nothing |
| ConfigUtils.NoKeyIgnored | src/utils/configUtils.ts:90-91 | a line without `=`, or whose trimmed text starts with `=`, sets nothing |
| ConfigUtils.LineEntryOfAssignment | src/utils/configUtils.ts:90-94 | a line `k=v`, where `k` has no `=` and is neither blank nor a comment, sets the trimmed `k` to the trimmed `v`; `v` may contain `=` |
| ConfigUtils.LineEntryIsAssignment | src/utils/configUtils.ts:82-94 | conversely, every line that sets a key has that `k=v` shape |
| ConfigUtils.LineEntryKey | src/utils/configUtils.ts:90-92 | the key a line sets is never empty and holds no `=` |
| ConfigUtils.AssignLastWins | src/utils/configUtils.ts:94 | a key is set exactly when some entry sets it, and holds the value of the last such entry |
| ConfigUtils.DefinedKeyIsSet | src/utils/configUtils.ts:81-94 | a key that any line of the file sets is a key of the parsed file |
| ConfigUtils.ParseConfigLastWins | src/utils/configUtils.ts:81-94 | a parsed key holds the value of a line that sets it, and no later line sets it |
| ConfigUtils.ParsedKeys | src/utils/configUtils.ts:90-94 | every parsed key is non-empty and holds no `=` |
| ConfigUtils.IgnoredLineDropsOut | src/utils/configUtils.ts:82-91 | removing a line that sets nothing leaves the parsed settings unchanged |
| ConfigUtils.Loaded | src/utils/configUtils.ts:35-47 | every text field of a loaded configuration is non-empty, since an empty value takes its default |
| ConfigUtils.FallbacksAgree | src/utils/configUtils.ts:35-67 | settings with every key missing or empty give exactly the configuration used when the file cannot be read |
| ConfigUtils.FileWithoutSettings | src/utils/configUtils.ts:35-47 | a file none of whose lines sets a key gives the default configuration |
| ConfigUtils.PortRoundTrip | src/utils/configUtils.ts:37 | `SERVER_PORT=<n>` as the last setting of the port gives the port `n` |
| ConfigUtils.ConfigStore.LoadConfig | src/utils/configUtils.ts:25-70 | with a cached configuration it returns that configuration and changes nothing; otherwise it caches and returns the configuration read from the file, or the defaults when reading failed |
| ConfigUtils.ConfigStore.GetConfig | src/utils/configUtils.ts:104-109 | it fails, with the "not loaded" message, exactly when nothing is cached; otherwise it returns the cached configuration |
| ConfigUtils.ConfigStore.ReloadConfig | src/utils/configUtils.ts:114-117 | it always re-reads the file, whatever was cached, and caches the result |
| CreateAccount.Check | src/controllers/accounts/createAccount.ts:27-67 | a body that passes has a truthy `username` and `passwrod`, a username that converts to text matching `^[a-zA-Z0-9_]{3,20}$`, and a password whose `length` converts to a number not below 6; the checks throw only on a username or a password `length` that cannot be converted, with the `TypeError` message |
| CreateAccount.TextPasswordLength | src/controllers/accounts/createAccount.ts:59 | a text password's length counts UTF-16 code units: under three characters it is always short, from six on never, and without characters beyond U+FFFF it is short exactly when it has fewer than six |
| CreateAccount.CheckOrder | src/controllers/accounts/createAccount.ts:32-67 | each outcome, stated as an if-and-only-if, is decided by the first check that does not pass: missing fields, then the username's conversion and pattern, then the password length's conversion and comparison |
| CreateAccount.NumericUsernames | src/controllers/accounts/createAccount.ts:46-47 | a number username is tested on its decimal text: it passes exactly when it is at least 100 and below 10^20 |
| CreateAccount.RefusalReply | src/controllers/accounts/createAccount.ts:34-65 | every refusal is answered with 400 |
| CreateAccount.Salt | src/controllers/accounts/createAccount.ts:88 | the salt is `PASSWORD_SALT` when it is set and non-empty, `openrpg_salt` otherwise, and is never empty |
| CreateAccount.AccountStore.UsernameExists | src/controllers/accounts/firebaseService.ts:65-91 | whether some stored account has the username, or the "Falha ao verificar username" error |
| CreateAccount.AccountStore.SaveAccount | src/controllers/accounts/firebaseService.ts:26-57 | it adds exactly one account under a fresh identifier and returns that identifier, or fails with the "Falha ao salvar conta" error and changes nothing |
| CreateAccount.Create | src/controllers/accounts/createAccount.ts:22-136 | refused bodies get their 400; a check that throws gets 500 with the `TypeError` message; a failing query or save gets 500 with the store's message; a password that cannot be converted for `passwrod + salt` gets 500 once the username is known to be free, and nothing is stored; a taken username gets 409 and nothing is saved; otherwise it answers 201 with the new identifier and the same username, and stores exactly one account holding `hash(passwrod + salt)`; usernames stay unique and nothing is stored unless the answer is 201 |
| ItemSort.SortPermutes | src/utils/fileUtils.ts:26 | sorting by `id` only reorders: the result is a permutation of its input |
| ItemSort.SortSorts | src/utils/fileUtils.ts:26 | when every `id` converts to a number, the result ascends by the converted `id` |
| ItemSort.SortStable | src/utils/fileUtils.ts:26 | when every `id` converts to a number, records whose ids convert to the same number keep their relative order |
| ItemSort.TextIdSortsAsNumber | src/utils/fileUtils.ts:26 | a record whose `id` is an integer's text sorts exactly as if the `id` were that integer |
| ItemSort.ComparisonThrowsIff | src/utils/fileUtils.ts:26 | the sort throws exactly when there are two records or more and one is `null` or has an `id` whose conversion throws, whatever the sorting algorithm |
| ItemSort.SortIgnoresListingOrder | src/db/utils/DbFileUtils.ts:45 | two listings with the same records, where records sharing an `id` come in the same order, sort to the same list |
| FileSystem.ResolveAppend | src/utils/fileUtils.ts:38 | following a path one name further is following the path and then that name |
| FileSystem.MkdirAllCreates | src/utils/fileUtils.ts:57 | after a successful `mkdir -p` the path leads to a directory |
| FlatDirectory.ReadJsonFiles | src/utils/fileUtils.ts:18-23 | the loop over the `.json` files gives every file's parsed content in order, or the first failure |
| FlatDirectory.ParsedFiles | src/db/utils/DbFileUtils.ts:37-42 | the batch fails exactly when some file cannot be read or parsed; otherwise it holds each file's content, position by position |
| FlatDirectory.ListingMembers | src/utils/fileUtils.ts:13-23 | a flat listing holds exactly the contents of the `.json` entries of `db/items`, whatever their shape |
| FlatDirectory.ListingFails | src/utils/fileUtils.ts:13-23 | reading the flat directory fails exactly when it cannot be listed or one `.json` entry cannot be read or parsed |
| FlatDirectory.ReadItemFileOutcomes | src/utils/fileUtils.ts:38-47 | a lookup gives `null` exactly when `<id>.json` does not exist, and a record exactly when the file parses to it |
| FlatDirectory.LookupHitListed | src/utils/fileUtils.ts:36-40 | a record found by file name also appears in a successful listing |
| FileUtils.GetAllItems | src/utils/fileUtils.ts:11-31 | the method computes the parsed `.json` files sorted by `id`, or the load error, which the comparator also raises on a `null` record or an `id` that cannot be converted |
| FileUtils.LoadFails | src/utils/fileUtils.ts:13-30 | `getAllItems` throws exactly when the directory cannot be listed, a `.json` file cannot be read or parsed, or there are two `.json` files or more and one holds `null` or a record whose `id` cannot be converted |
| FileUtils.ListingSorted | src/utils/fileUtils.ts:18-26 | the listing is a permutation of the parsed files, sorted by `id` when every `id` converts to a number |
| FileUtils.LookupHitInListing | src/utils/fileUtils.ts:36-40 | a record `getItemById` finds is also in a successful `getAllItems` |
| FileUtils.LookupTrustsFileName | src/utils/fileUtils.ts:38-40 | `getItemById(id)` returns exactly what `<id>.json` holds, whatever that record's own `id` |
| FileUtils.EnsureItemsDirectory | src/utils/fileUtils.ts:53-59 | an existing path is left untouched; otherwise `mkdir -p` runs, and on success the path leads to a directory; a failed `mkdir` leaves the disk as it was |
| DbFileUtils.GetAllItems | src/db/utils/DbFileUtils.ts:24-50 | the method checks access, then computes the parsed `.json` files sorted by `id`, or the load error, which the comparator also raises on a `null` record or an `id` that cannot be converted |
| DbFileUtils.ListingsAgree | src/db/utils/DbFileUtils.ts:29-45 | the access check adds no failure of its own: this listing and the `FileUtils` one succeed together and agree |
| DbFileUtils.LookupsAgree | src/db/utils/DbFileUtils.ts:62-83 | both flat lookups find the same record, or both find nothing, or both throw |
| DbFileUtils.ExistsMatchesLookup | src/db/utils/DbFileUtils.ts:62-102 | the lookup gives `null` exactly when `<id>.json` does not exist; a found record means `itemExists` holds, and an existing file is never reported missing |
| LocalDatabaseService.PushFileItems | src/db/LocalDatabaseService.ts:69-75 | the loop over one directory's files appends exactly the records that read as valid items |
| LocalDatabaseService.PushLeafItems | src/db/LocalDatabaseService.ts:51-63 | the loop over a category's sub-directories appends their records in order, or fails when one cannot be listed |
| LocalDatabaseService.PushCategoryItems | src/db/LocalDatabaseService.ts:42-76 | one category contributes its sub-directories' records when it has sub-directories, and its own records otherwise |
| LocalDatabaseService.GetAllItems | src/db/LocalDatabaseService.ts:32-85 | the method computes the collected records sorted by `id`, or the load error |
| LocalDatabaseService.FileItemsMembers | src/db/LocalDatabaseService.ts:58-61 | a record is kept exactly when some file parses to it and it is a valid item |
| LocalDatabaseService.FlatCategoryMembers | src/db/LocalDatabaseService.ts:64-76 | a category without sub-directories contributes the valid records of its own `.json` files |
| LocalDatabaseService.NestedCategoryMembers | src/db/LocalDatabaseService.ts:45-63 | a category with sub-directories contributes exactly the valid records of the `.json` files inside them, and none of the files beside them |
| LocalDatabaseService.CategoryFails | src/db/LocalDatabaseService.ts:45-53 | a category fails exactly when it, or one of its sub-directories, cannot be listed |
| LocalDatabaseService.LocalListingFails | src/db/LocalDatabaseService.ts:81-84 | the listing fails exactly when `db/item` or one category cannot be listed; an unreadable or invalid record never fails it |
| LocalDatabaseService.RootFilesIgnored | src/db/LocalDatabaseService.ts:37-39 | a plain file at the top level is not a category: adding one changes nothing |
| LocalDatabaseService.CategoryValid | src/db/LocalDatabaseService.ts:109-141 | every record a category yields has number `id` and `type` and string `name` and `description` |
| LocalDatabaseService.LocalListingMembers | src/db/LocalDatabaseService.ts:32-80 | the listing holds exactly the records of its categories, each a valid item |
| LocalDatabaseService.LocalListingSorted | src/db/LocalDatabaseService.ts:80 | the listing ascends by `id` and is a permutation of the collected records |
| LocalDatabaseService.Find | src/db/LocalDatabaseService.ts:96 | `find` gives nothing exactly when no item has the `id`; otherwise it gives the first item that has it |
| LocalDatabaseService.LookupAgreesWithListing | src/db/LocalDatabaseService.ts:93-100 | a lookup fails exactly when the listing fails; it gives `null` exactly when no listed item has the `id`; a found record is listed, has the `id` and is valid |
| HttpReplies.PositiveId | src/controllers/ItemController.ts:35-37 | an identifier is accepted exactly when `parseInt` gives a number above zero, and it is that number |
| HttpReplies.PositiveIdOfDecimal | src/controllers/ItemController.ts:35-37 | the decimal text of a positive number is accepted as that number |
| HttpReplies.NonPositiveIdRejected | src/controllers/ItemController.ts:37-44 | the decimal text of zero or of a negative number is refused |
| HttpReplies.LookupStatuses | src/controllers/ItemController.ts:46-70 | 200 exactly for a truthy record, which is then the body's `data`; 404 exactly for `null` or a falsy record; 500 exactly when the lookup threw |
| HttpReplies.ListingStatuses | src/controllers/ItemController.ts:11-27 | 200 exactly when the listing succeeded, with `data` the listing unchanged and `count` its length; 500 with `success: false` exactly when it threw |
| ItemController.ListingReplySorted | src/controllers/ItemController.ts:9-18 | a 200 listing carries every record of `db/items`, sorted by `id` when every `id` converts to a number |
| ItemController.InvalidIdIgnoresCatalogue | src/controllers/ItemController.ts:35-44 | an identifier that is `NaN` or not positive gets 400 whatever the catalogue holds |
| ItemController.FoundRecordListed | src/controllers/ItemController.ts:46-61 | a 200 answer carries a record that the listing also holds |
| ItemHandlers.MissingIdRejected | src/controllers/items/getItemById.ts:19-29 | a missing or empty parameter reads as `'0'` and gets 400 |
| ItemHandlers.InvalidIdIgnoresCatalogue | src/controllers/items/getItemById.ts:22-29 | an identifier that is `NaN` or not positive gets 400 whatever the catalogue holds |
| ItemHandlers.LookupOnlyPositive | src/controllers/items/getItemById.ts:22-32 | any other answer comes from a lookup of the positive number `parseInt` made of the parameter |
| ItemHandlers.NotFoundMeansNoFile | src/controllers/items/getItemById.ts:32-42 | 404 exactly when `<id>.json` does not exist or holds a falsy value |
| ItemHandlers.ListingHandlersAgree | src/controllers/items/getAllItems.ts:16-39 | the stand-alone listing handler answers exactly as `ItemController.getAllItems` |
| ItemHandlers.LookupHandlersAgree | src/controllers/items/getItemById.ts:16-61 | on the same non-empty parameter the stand-alone lookup handler answers exactly as `ItemController.getItemById` |

## Left out

- File contents are parsed or unparsable; the JSON grammar itself is not modelled.
- JSON numbers are integers. Fractional `id`s and floating-point comparison in the sort comparator are not modelled.
- `JsText.StringToNumber`: text with a decimal point, an exponent or `Infinity` converts to `NaN` here, even where ECMA-262 gives an integer (`"1.0"`, `"1e3"`), because the model's numbers are integers.
- SortStable: promised only when every `id` converts to a number. A `NaN` comparison makes the comparator inconsistent, and ECMA-262 then leaves the order implementation-defined. For such input `ItemSort.SortById` gives the insertion-sort order, one of the permitted results, and only the permutation (`ItemSort.SortPermutes`) is promised.
- `JsonValues.ConversionError` is the message V8 gives the conversion `TypeError`; other engines word it differently.
- `parseInt` gives unbounded integers; the loss of precision of doubles beyond 2^53 is not modelled.
- `console` logging and `new Date().toISOString()` are left out. The timestamp is a parameter of `CreateAccount.Create`.
- SHA-256 is a function parameter. `PASSWORD_SALT` is a parameter, and so is the text of `server.conf` (`None` when reading it fails).
- `ConfigUtils.configFileExists` is not modelled: it is only an `fs.access` call.
- async/await is modelled sequentially. The race between the username check and the insertion is not modelled.
- Firestore is modelled as a set of accounts with counter identifiers. Its generated document identifiers, its server timestamps and the `username ==` query's typing are not modelled.
- `CreateAccount.AccountStore`: each of the two store calls fails with a fixed message while its fault is set. Errors the driver throws for other reasons are not modelled.
- The request body is an object (`express.json`). A body that is not an object, and the `debug.errorType` of non-`Error` throws, are not modelled.
- `Array.prototype.sort` is modelled as a function on sequences, not as an in-place update of the array.
- Keys such as `__proto__` written into the `config` record behave as ordinary map keys here.
- The Firebase set-up, the Express bootstrap, the route wiring, the `Item` type declarations and the GitBook sync script are not part of this model.
