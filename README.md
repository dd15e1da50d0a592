# Telegram assistant bot: note store, quote subscriptions and summarizer

A Dafny model of the stateful core of a Telegram bot (`server.py`), in three parts:

- **The note store** behind `/note`. Every user has named notes. A note is an ordered list of
  items. The notes file maps `str(user_id)` to that user's notes. Every command that changes a
  note loads the whole file, changes the caller's entry and writes the whole file back.
  `show`, `list` and the already-exists, missing-note and out-of-range refusals only read it.
  The usage and not-an-integer refusals return before reading it. `NoteStore` is a class whose
  `file` field is that map. The handlers that can change the file (create, add, edit, remove,
  delete) and the `note_handler` dispatcher are methods on it. `show` and `list` change
  nothing, so they are functions that read it. The messages the bot sends are values of the
  `Reply` datatype, and `Reply.Text` gives their exact wording.
- **The daily-quote subscription list** behind `/quote`. It is a list of user ids in a file.
  `SubscriberList` holds it as a `seq<int>`. Subscribe, unsubscribe and the `quote`
  dispatcher are methods on it; status, which only reads the list, is a function.
- **`summarize_text`**. It cuts a text at each `". "` and keeps the first five sentences.

One user's notes are a `Notebook`. It holds the note names in insertion order, which is what
Python's dict keeps and `list` shows, together with a map from name to items. The bot builds
its values with Python's `str.join`, `str.split`, `str.lower`, `int()`, `str(int)` and
`list.remove`. Each is written out over `seq<char>` in modules `Text`, `Numbers` and `Seqs`.

Modules:

| module | file | contents |
|---|---|---|
| `Seqs` | seqs.dfy | `Distinct`; `IndexOf` and `RemoveFirst` (Python's `list.remove`) |
| `Text` | text.dfy | `Join`, `Split`, `Lower`, `Contains`, and the split/join round trips |
| `Numbers` | numbers.dfy | `IntToString` (`str`) and `ParseInt` (`int()`), with `int(str(n)) == n` |
| `Replies` | replies.dfy | the `Reply` datatype and the exact message texts |
| `Notes` | notes.dfy | `Notebook`, note rendering, `NoteStore` and its command methods |
| `Subscriptions` | subscriptions.dfy | `SubscriberList` and the `quote` command |
| `Summary` | summary.dfy | `SummarizeText` and its properties |
| `Scenarios` | scenarios.dfy | command sequences a caller can reason about from the contracts alone |

Each note command's outcome is a `twostate predicate` (`CreateOutcome`, `AddOutcome`,
`EditOutcome`, `RemoveOutcome`, `DeleteOutcome`). The command method ensures it, and
`NoteHandler` ensures the same predicate for the command that words[0] selects. So the
dispatcher's contract and each handler's contract are the same statement.

Design behaviour the model keeps as written:

- `create`, `show` and `delete` join all the words into the note name. `add`, `edit` and
  `remove` take only the first word. So a note whose name has several words can be created,
  shown and deleted, but nothing can be added to it.
- `delete` has no usage check. With no words it looks up the note named `""`.
- `edit` and `remove` turn the item number into an index with `int(args[1]) - 1` and then
  require `0 <= index < len(items)`. So `0` and negative numbers are refused, not read from
  the end of the list.
- `quote` compares its subcommand exactly, with no lower-casing. `note` lower-cases its
  subcommand.

## Model

| member | source | states |
|---|---|---|
| `Notes.Notebook.WithNote` | server.py:107 | the new note is empty and last in order; every other note is unchanged; names stay unique |
| `Notes.Notebook.Appended` | server.py:119 | the item goes at the end of that note only; names and the other notes are unchanged |
| `Notes.Notebook.Edited` | server.py:158 | one position of one note becomes the new text; its length and every other position and note are unchanged |
| `Notes.Notebook.Removed` | server.py:177 | that note loses the item at the index: earlier items stay, later ones shift down one, the multiset loses one copy; other notes are unchanged |
| `Notes.Notebook.Without` | server.py:188 | exactly that note is gone: the names are the old names with the deleted one's position cut out, so the rest keep their order; a name is listed afterwards iff it was listed before and is not the deleted one; the other notes keep their items |
| `Notes.CreateThenDelete` | server.py:184-193 | deleting a note just created gives back the notes as they were, order included |
| `Notes.AddThenRemoveLast` | server.py:165-182 | removing the item just added, by its number `len+1`, gives back the notes as they were |
| `Notes.Listing` | server.py:133-134 | the joined listing is empty exactly when the note has no items, which is when the bot says the note is empty |
| `Notes.RenderLineShape` | server.py:133 | a line `"{n}. {item}"` ends with the item after ". " and a nonempty label; a positive number's label starts with a digit; the line has a line break exactly when the item does |
| `Notes.RenderItemsShape` | server.py:133 | one line per item, in stored order, each ending with its item; items without line breaks give lines without line breaks |
| `Notes.ParseRenderedLine` | server.py:133 | a line `"{n}. {item}"` reads back as `n` and `item`, whatever the item contains, exactly when `int()` accepts n's digit count |
| `Notes.ListingReadsBack` | server.py:133 | a shown note, cut at line breaks, has one line per item; when the last number has at most 4300 digits, line i reads back as number i+1 and item i |
| `Notes.AppendAddsLine` | server.py:119-122 | after an add, the shown note gains one line, numbered one past the last |
| `Notes.EditChangesOneLine` | server.py:158-161 | after an edit, only that line of the shown note changes, and its number stays |
| `Notes.RemoveRelabels` | server.py:177-180 | after a remove, earlier lines are unchanged and every later item is shown one number lower |
| `Notes.SaveKeepsOtherUsers` | server.py:92-95 | overwriting one user's entry never changes what another user's id loads |
| `Notes.CommandNamesAreLowercase` | server.py:212-229 | each command name lower-cases to itself, so typing it as written reaches that command |
| `Notes.NoteStore.constructor` | server.py:75-82 | before the notes file exists, the store is empty and every user loads no notes |
| `Notes.NoteStore.LoadUserNotes` | server.py:88-90 | a user's notes are their entry in the file, or none; they satisfy the notebook invariant |
| `Notes.NoteStore.SaveUserNotes` | server.py:92-95 | the caller's entry is replaced and reloads as what was saved; every other user loads what they loaded before |
| `Notes.NoteStore.ShowNote` | server.py:126-136 | usage with no words; the missing-note message; otherwise empty-note exactly when there are no items, else the numbered listing |
| `Notes.NoteStore.ListNotes` | server.py:138-143 | "no notes" exactly when the user has none; otherwise the reply is the note names joined by line breaks, in creation order, and when no name holds a line break it splits back into exactly those names |
| `Notes.NoteStore.CreateNote` | server.py:98-109 | usage with no words; an existing name is refused with nothing saved; otherwise the caller's notes gain that empty note; other users are unchanged |
| `Notes.NoteStore.AddItem` | server.py:111-124 | usage below two words; a missing note is refused with nothing saved; otherwise the item is appended and the replies are the confirmation and the shown note; other users are unchanged |
| `Notes.NoteStore.EditItem` | server.py:145-163 | usage, not-an-integer and out-of-range each leave the file alone; otherwise that item is replaced and the replies are "Updated item n" and the shown note |
| `Notes.NoteStore.RemoveItem` | server.py:165-182 | usage, not-an-integer and out-of-range each leave the file alone; otherwise that item is popped, named in the reply, and the note is shown |
| `Notes.NoteStore.DeleteNote` | server.py:184-193 | an existing note is deleted, the new listing is sent, and the note no longer loads; a missing one is refused with the file unchanged |
| `Notes.NoteStore.NoteHandler` | server.py:207-231 | help with no words; the lower-cased first word selects the command, which gets the remaining words as its arguments and has that command's outcome; show and list change nothing; an unknown word is refused; other users never change |
| `Numbers.IntToString` | server.py:90 | `str(n)` is never empty, holds only digits after an optional leading minus sign (present exactly for negative n), and starts with 0 only for 0 |
| `Numbers.ParseIntNeedsDigit` | server.py:151 | `int(s)` succeeds only when s holds a digit, and gives a negative number only when s holds a minus sign |
| `Numbers.ParseIntBlanks` | server.py:171 | blanks around a number are stripped (`" 7\n"` reads as 7), but U+001C before it is not a blank and the number is refused |
| `Numbers.ParseIntOfString` | server.py:151 | `int(str(n)) == n` for every integer of at most 4300 digits, negative ones included; a longer numeral is refused |
| `Numbers.ParseIntDigitLimit` | server.py:150-154 | `int()` accepts a numeral of exactly 4300 digits and refuses one of 4301 |
| `Numbers.IntToStringInjective` | server.py:90 | different user ids give different keys in the notes file |
| `Text.Join` | server.py:264 | joining no parts gives ""; the first part begins the result, and is followed by the separator when more parts come |
| `Text.Split` | server.py:263 | at least one piece; a string without the separator is its own single piece, and one containing it gives two or more |
| `Text.Lower` | server.py:212 | same length; no upper-case ASCII letter remains; every other character is kept; each upper-case letter becomes its lower-case partner |
| `Text.JoinSplit` | server.py:263-264 | `sep.join(s.split(sep)) == s` for every string and nonempty separator |
| `Text.SplitJoin` | server.py:263-264 | splitting a join of pieces free of the separator gives back the pieces, for a one-character separator or two different characters |
| `Text.SplitPiecesFree` | server.py:263 | no piece of a split contains the separator |
| `Text.JoinPrefix` | server.py:264 | joining the first k pieces gives a prefix of joining all of them |
| `Text.SplitJoinLines` | server.py:141 | note names without line breaks, joined by "\n", split back into the same names |
| `Summary.SummarizeText` | server.py:262-265 | a text of at most five sentences is returned unchanged; any summary is a prefix of the text |
| `Summary.SummaryKeepsFirstSentences` | server.py:262-265 | a longer text becomes exactly its first five sentences and gets strictly shorter |
| `Summary.SummarizeIdempotent` | server.py:262-265 | summarizing a summary changes nothing |
| `Seqs.IndexOf` | server.py:317 | the first position holding the element |
| `Seqs.RemoveFirst` | server.py:317 | `list.remove` shortens the list by one and takes away exactly one copy of the element |
| `Seqs.RemoveFirstAt` | server.py:317 | elements before the first occurrence stay in place and the later ones move down one position |
| `Seqs.RemoveFirstDistinct` | server.py:317 | on a list without duplicates, `list.remove(x)` leaves exactly the other elements, still without duplicates |
| `Seqs.RemoveFirstOfAppended` | server.py:305-321 | unsubscribing right after a fresh subscribe gives back the list as it was |
| `Replies.ListingsEndTexts` | server.py:134-141 | a shown note's text names the note and ends with its listing; the note list ends with the names |
| `Replies.CreateRepliesQuoteNote` | server.py:105-109 | the duplicate and created replies quote the note's name |
| `Replies.ShowRepliesQuoteNote` | server.py:124-136 | the missing-note and empty-note replies quote the note's name |
| `Replies.DeleteRepliesQuoteNote` | server.py:190-193 | the deleted and missing-note replies of delete quote the note's name |
| `Replies.AddedQuotesItem` | server.py:121 | the add confirmation quotes the added item |
| `Replies.RemovedQuotesItem` | server.py:179 | the remove confirmation quotes the removed item |
| `Subscriptions.SubscriberList.constructor` | server.py:279-286 | before the subscription file exists, the list is empty |
| `Subscriptions.SubscriberList.Status` | server.py:323-328 | "subscribed" exactly when the id is in the list; nothing changes |
| `Subscriptions.SubscriberList.Subscribe` | server.py:305-312 | an absent id is appended; a present id is refused with the list unchanged; afterwards the id is in the list, exactly once if the list had no duplicates |
| `Subscriptions.SubscriberList.Unsubscribe` | server.py:314-321 | a present id loses its first occurrence; an absent id is refused with the list unchanged; the multiset loses one copy; a list without duplicates ends without the id |
| `Subscriptions.SubscriberList.Quote` | server.py:292-336 | help with no words; the exact first word selects subscribe, unsubscribe or status with those outcomes; any other word gets the invalid-command reply and changes nothing |
| `Scenarios.GroceriesCreate` | server.py:98-109 | creating the same note twice: the second create replies that it already exists, and the user has one empty note |
| `Scenarios.GroceriesAdd` | server.py:111-124 | an add appends the item and replies with the listing of the note including it |
| `Scenarios.GroceriesCreateAndAdd` | server.py:111-134 | after adding "milk" and "eggs" the note holds both, and the last reply shows it as "1. milk\n2. eggs" |
| `Scenarios.GroceriesEdit` | server.py:145-163 | `edit groceries 1 oat milk` replaces the first item with "oat milk"; the replies are "Updated item 1" and the note shown as "1. oat milk\n2. eggs" |
| `Scenarios.GroceriesRemove` | server.py:165-182 | `remove groceries 1` leaves only "eggs"; the replies name the removed "oat milk" and show the note as "1. eggs" |
| `Scenarios.EditSeparatedNumber` | server.py:150-154 | `edit groceries "\x1c7" tea` is refused as not an integer and changes nothing |
| `Scenarios.EditLongNumber` | server.py:150-154 | an item number of 4301 digits is refused as not an integer and changes nothing |
| `Scenarios.GroceriesRemovePastEnd` | server.py:176-182 | removing item 2 from a one-item note is refused and changes nothing |
| `Scenarios.GroceriesDelete` | server.py:184-193 | after `delete groceries` the note is gone and `show groceries` replies that it does not exist |
| `Scenarios.Groceries` | server.py:98-193 | the whole run from a missing notes file ends with the note deleted and reported missing |
| `Scenarios.SubscribeTwice` | server.py:305-328 | a second subscribe is refused; after unsubscribing the list is empty and the status says not subscribed |

## Left out

- Telegram I/O. Updates, `reply_text` and `chat_id` become method parameters and returned
  `Reply` values. The `Command` wrappers, `/start` and `/id` are not modelled.
- JSON files. The notes file and the subscription file are fields of the store classes. Reading
  a corrupt file as empty (server.py:78-82, 282-285) is not modelled. Neither is writing `[]`
  for an empty notes dict (server.py:86): `save_user_notes` always writes a dict that holds
  the caller's entry, so that branch is never taken.
- Concurrency. The bot can interleave two users' commands around file I/O, and the last full
  write wins. The model runs one command at a time.
- `Numbers.ParseInt`, `Notes.NoteStore.EditItem`, `Notes.NoteStore.RemoveItem`: cover ASCII
  digits only. `int()` also accepts the other Unicode decimal digits (`"\uff11"`, `"\u0661"`
  read as 1). For such an item number the bot edits or removes the item; the model replies
  "Item number must be a valid integer." and leaves the file unchanged.
- `Numbers.ParseInt`, `Notes.NoteStore.EditItem`, `Notes.NoteStore.RemoveItem`: the digit limit is
  the default of 4300 in CPython 3.11 and later. A limit changed with `sys.set_int_max_str_digits` or
  `PYTHONINTMAXSTRDIGITS` is not modelled.
- `Numbers.IntToString`: does not model `str()`'s own 4300-digit limit, past which `str(n)`
  raises. User ids and item numbers are far shorter.
- `Text.Lower`: does only ASCII lower-casing. This is exact for comparing against the
  all-ASCII command names: the only non-ASCII characters that lower-case to something with
  ASCII letters are U+212A, which gives `k` (no command has a `k`), and U+0130, which gives
  `i` followed by a combining dot (never a command name).
- Fetching jokes and quotes over HTTP, and the `joke` command.
- `send_daily_quote`, the scheduler, `wake_api` and the keep-alive web server.
- The PDF flow: `summary`, `handle_pdf`, text extraction and `USER_WAITING_FOR_PDF`. Only the
  pure `summarize_text` is modelled.
- `Text.SplitJoin`: is proved only for separators of one character or two different
  characters. Those are the separators the bot uses (`"\n"`, `". "`, `" "`).
