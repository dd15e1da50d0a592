/** The per-user note store behind the `/note` command (server.py:74-231).

    The notes file maps `str(user_id)` to that user's notes; a user's notes map each note name
    to an ordered list of item strings. Every command that changes a note loads the whole
    file, changes the caller's entry and writes the whole file back; `show`, `list` and every
    refusal only read it. */
module Notes {
  import opened Seqs
  import opened Text
  import opened Numbers
  import opened Replies

  /** One user's notes, as the Python dict holds them: the note names in insertion order
      (the order in which `list` shows them) and the items of each note. */
  datatype Notebook = Notebook(names: seq<string>, items: map<string, seq<string>>)
  {
    /** Names are unique, and the names in order are exactly the notes that exist. */
    ghost predicate Valid()
    {
      Distinct(names) && items.Keys == set n | n in names
    }

    /** `user_notes[name] = []` for a new name: exactly that note is added, empty, and last. */
    function WithNote(name: string): (nb: Notebook)
      requires Valid() && name !in items
      ensures nb.Valid()
      ensures nb.names == names + [name]
      ensures nb.items.Keys == items.Keys + {name} && nb.items[name] == []
      ensures forall n :: n in items ==> nb.items[n] == items[n]
    {
      Notebook(names + [name], items[name := []])
    }

    /** `user_notes[name].append(item)`: the item goes at the end of that note only. */
    function Appended(name: string, item: string): (nb: Notebook)
      requires Valid() && name in items
      ensures nb.Valid()
      ensures nb.names == names && nb.items.Keys == items.Keys
      ensures nb.items[name] == items[name] + [item]
      ensures forall n :: n in items && n != name ==> nb.items[n] == items[n]
    {
      Notebook(names, items[name := items[name] + [item]])
    }

    /** `user_notes[name][index] = text`: one position of one note is replaced. */
    function Edited(name: string, index: nat, text: string): (nb: Notebook)
      requires Valid() && name in items && index < |items[name]|
      ensures nb.Valid()
      ensures nb.names == names && nb.items.Keys == items.Keys
      ensures |nb.items[name]| == |items[name]| && nb.items[name][index] == text
      ensures forall j :: 0 <= j < |items[name]| && j != index ==> nb.items[name][j] == items[name][j]
      ensures forall n :: n in items && n != name ==> nb.items[n] == items[n]
    {
      Notebook(names, items[name := items[name][index := text]])
    }

    /** `user_notes[name].pop(index)`: the item at `index` leaves that note and the later
        items move down one place. */
    function Removed(name: string, index: nat): (nb: Notebook)
      requires Valid() && name in items && index < |items[name]|
      ensures nb.Valid()
      ensures nb.names == names && nb.items.Keys == items.Keys
      ensures |nb.items[name]| == |items[name]| - 1
      ensures forall j :: 0 <= j < index ==> nb.items[name][j] == items[name][j]
      ensures forall j :: index <= j < |nb.items[name]| ==> nb.items[name][j] == items[name][j + 1]
      ensures multiset(nb.items[name]) == multiset(items[name]) - multiset{items[name][index]}
      ensures forall n :: n in items && n != name ==> nb.items[n] == items[n]
    {
      var s := items[name];
      assert s == s[..index] + [s[index]] + s[index + 1..];
      Notebook(names, items[name := s[..index] + s[index + 1..]])
    }

    /** `del user_notes[name]`: exactly that note disappears; the others keep their order. */
    function Without(name: string): (nb: Notebook)
      requires Valid() && name in items
      ensures nb.Valid()
      ensures name !in nb.items && nb.items.Keys == items.Keys - {name}
      ensures forall n :: n in nb.names <==> n in names && n != name
      ensures exists k :: 0 <= k < |names| && names[k] == name && nb.names == names[..k] + names[k + 1..]
      ensures forall n :: n in nb.items ==> nb.items[n] == items[n]
    {
      RemoveFirstDistinct(names, name);
      var k := IndexOf(names, name);
      assert RemoveFirst(names, name) == names[..k] + names[k + 1..];
      Notebook(RemoveFirst(names, name), items - {name})
    }
  }

  /** Deleting a note that was just created gives the notes back as they were. */
  lemma CreateThenDelete(nb: Notebook, name: string)
    requires nb.Valid() && name !in nb.items
    ensures nb.WithNote(name).Without(name) == nb
  {
    assert name !in nb.names;
    RemoveFirstOfAppended(nb.names, name);
    assert nb.items[name := []] - {name} == nb.items;
  }

  /** Removing the item just added, by its number, gives the notes back as they were. */
  lemma AddThenRemoveLast(nb: Notebook, name: string, item: string)
    requires nb.Valid() && name in nb.items
    ensures nb.Appended(name, item).Removed(name, |nb.items[name]|) == nb
  {
    var s := nb.items[name];
    assert (s + [item])[..|s|] + (s + [item])[|s| + 1..] == s;
    assert nb.items[name := s] == nb.items;
  }

  // ---------------------------------------------------------------------------
  // Rendering a note (server.py:133)

  /** One line of a shown note: `f"{number}. {item}"`. */
  function RenderLine(number: int, item: string): string
  {
    IntToString(number) + ". " + item
  }

  /** The lines of a shown note, labelled 1..n in stored order. */
  function RenderItems(items: seq<string>): seq<string>
  {
    seq(|items|, i requires 0 <= i < |items| => RenderLine(i + 1, items[i]))
  }

  /** The item ends its line, after a nonempty label and ". "; a positive number's label
      starts with a digit; the line holds a line break exactly when the item does. */
  lemma RenderLineShape(number: int, item: string)
    ensures var line := RenderLine(number, item);
      && |line| >= |item| + 3 && line[|line| - |item|..] == item
      && line[|line| - |item| - 2..|line| - |item|] == ". "
      && (number > 0 ==> IsDigit(line[0]))
      && ('\n' in line <==> '\n' in item)
  {
    var tag := IntToString(number);
    IntToStringChars(number);
    var line := tag + ". " + item;
    assert line[|line| - |item|..] == item;
    assert line[|line| - |item| - 2..|line| - |item|] == ". ";
    assert forall i :: 0 <= i < |line| ==> line[i] == (if i < |tag| then tag[i] else if i < |tag| + 2 then ". "[i - |tag|] else item[i - |tag| - 2]);
  }

  /** A shown note has one line per item, in stored order, each ending with its item; items
      without line breaks give lines without line breaks. */
  lemma RenderItemsShape(items: seq<string>)
    ensures var lines := RenderItems(items);
      && |lines| == |items|
      && (forall i :: 0 <= i < |items| ==> |lines[i]| >= |items[i]| && lines[i][|lines[i]| - |items[i]|..] == items[i])
      && ((forall i :: 0 <= i < |items| ==> '\n' !in items[i]) ==> forall i :: 0 <= i < |lines| ==> '\n' !in lines[i])
  {
    forall i | 0 <= i < |items|
      ensures var line := RenderItems(items)[i];
        |line| >= |items[i]| && line[|line| - |items[i]|..] == items[i] && ('\n' in line <==> '\n' in items[i])
    {
      RenderLineShape(i + 1, items[i]);
    }
  }

  /** `"\n".join(...)` of the lines; the note shows as empty exactly when this is "". */
  function Listing(items: seq<string>): (listing: string)
    ensures listing == "" <==> items == []
  {
    var lines := RenderItems(items);
    if items == [] then Join(lines, "\n")
    else
      assert lines[0] == RenderLine(1, items[0]);
      assert |lines[0]| > 0;
      Join(lines, "\n")
  }

  /** Reads one shown line back: the number before the first ". " and the item after it. */
  function ParseLine(line: string): Option<(int, string)>
  {
    var parts := Split(line, ". ");
    if |parts| < 2 then None
    else match ParseInt(parts[0])
      case None => None
      case Some(n) => Some((n, Join(parts[1..], ". ")))
  }

  /** A rendered line reads back as its number and item, whatever the item holds, as long as
      `int()` accepts the number's digit count. */
  lemma ParseRenderedLine(number: int, item: string)
    ensures ParseLine(RenderLine(number, item)) == if DigitCount(number) <= MaxStrDigits then Some((number, item)) else None
  {
    var tag := IntToString(number);
    IntToStringChars(number);
    if Contains(tag, ". ") {
      ContainsFirstChar(tag, ". ");
      assert false;
    }
    SplitPieceThenRest(tag, item, ". ");
    var parts := Split(RenderLine(number, item), ". ");
    assert parts == [tag] + Split(item, ". ");
    assert parts[1..] == Split(item, ". ");
    JoinSplit(item, ". ");
    ParseIntOfString(number);
  }

  /** A shown note, cut at its line breaks, reads back as exactly the stored items, in order,
      labelled 1..n (items never hold a line break: they are words joined by spaces), whenever
      `int()` accepts the last label. */
  lemma ListingReadsBack(items: seq<string>)
    requires |items| > 0
    requires forall i :: 0 <= i < |items| ==> '\n' !in items[i]
    ensures |Split(Listing(items), "\n")| == |items|
    ensures DigitCount(|items|) <= MaxStrDigits ==>
      forall i :: 0 <= i < |items| ==> ParseLine(Split(Listing(items), "\n")[i]) == Some((i + 1, items[i]))
  {
    var lines := RenderItems(items);
    RenderItemsShape(items);
    forall i | 0 <= i < |lines|
      ensures !Contains(lines[i], "\n")
    {
      ContainsChar(lines[i], '\n');
    }
    SplitJoin(lines, "\n");
    if DigitCount(|items|) <= MaxStrDigits {
      forall i | 0 <= i < |items|
        ensures ParseLine(Split(Listing(items), "\n")[i]) == Some((i + 1, items[i]))
      {
        DigitCountMonotone(i + 1, |items|);
        ParseRenderedLine(i + 1, items[i]);
      }
    }
  }

  /** Adding an item adds one line, labelled one past the last. */
  lemma AppendAddsLine(items: seq<string>, item: string)
    ensures RenderItems(items + [item]) == RenderItems(items) + [RenderLine(|items| + 1, item)]
  {
    var after := items + [item];
    assert forall i :: 0 <= i < |items| ==> after[i] == items[i];
  }

  /** Editing position `index` changes that line only, and keeps its label. */
  lemma EditChangesOneLine(items: seq<string>, index: nat, text: string)
    requires index < |items|
    ensures RenderItems(items[index := text]) == RenderItems(items)[index := RenderLine(index + 1, text)]
  {
  }

  /** Removing position `index` keeps the earlier lines and relabels each later item one lower. */
  lemma RemoveRelabels(items: seq<string>, index: nat)
    requires index < |items|
    ensures RenderItems(items[..index] + items[index + 1..])[..index] == RenderItems(items)[..index]
    ensures var lines := RenderItems(items[..index] + items[index + 1..]);
      forall j :: index <= j < |lines| ==> lines[j] == RenderLine(j + 1, items[j + 1])
  {
    var after := items[..index] + items[index + 1..];
    assert forall j :: 0 <= j < |after| ==> after[j] == (if j < index then items[j] else items[j + 1]);
  }

  // ---------------------------------------------------------------------------
  // The notes file (server.py:75-95)

  /** `str(user_id)`, the key of a user's entry in the notes file. */
  function UserKey(uid: int): string
  {
    IntToString(uid)
  }

  /** `load_user_notes`: the caller's entry, or no notes at all. */
  function UserNotes(file: map<string, Notebook>, uid: int): Notebook
  {
    if UserKey(uid) in file then file[UserKey(uid)] else Notebook([], map[])
  }

  /** `save_user_notes` for one user leaves every other user's notes as they were,
      because different ids give different keys. */
  lemma SaveKeepsOtherUsers(file: map<string, Notebook>, uid: int, nb: Notebook, other: int)
    requires other != uid
    ensures UserNotes(file[UserKey(uid) := nb], other) == UserNotes(file, other)
  {
    if UserKey(other) == UserKey(uid) {
      IntToStringInjective(other, uid);
    }
  }

  const NoteCommands: set<string> := {"create", "add", "show", "list", "edit", "remove", "delete"}

  /** Each command name, typed as written, reaches its command: the names are lower case. */
  lemma CommandNamesAreLowercase(w: string)
    requires w in NoteCommands
    ensures Lower(w) == w
  {
    LowerOfLowercase(w);
  }

  class NoteStore {
    /** The contents of the notes file. A missing file reads as the empty map. */
    var file: map<string, Notebook>

    ghost predicate Valid()
      reads this
    {
      forall k :: k in file ==> file[k].Valid()
    }

    /** The store before the notes file exists. */
    constructor ()
      ensures Valid() && file == map[]
    {
      file := map[];
    }

    function LoadUserNotes(uid: int): (nb: Notebook)
      reads this
      ensures Valid() ==> nb.Valid()
    {
      UserNotes(file, uid)
    }

    /** `save_user_notes`: reload the file, overwrite the caller's entry, write it back. */
    method SaveUserNotes(uid: int, nb: Notebook)
      modifies this
      ensures file == old(file)[UserKey(uid) := nb]
      ensures LoadUserNotes(uid) == nb
      ensures forall v :: v != uid ==> LoadUserNotes(v) == old(LoadUserNotes(v))
    {
      var notes := file;
      notes := notes[UserKey(uid) := nb];
      file := notes;
      forall v | v != uid
        ensures LoadUserNotes(v) == old(LoadUserNotes(v))
      {
        SaveKeepsOtherUsers(old(file), uid, nb, v);
      }
    }

    /** `/note show <name...>`: the name is all the words joined by spaces. */
    function ShowNote(uid: int, args: seq<string>): (r: Reply)
      reads this
      ensures |args| == 0 ==> r == Usage(ShowUsage)
      ensures |args| > 0 && Join(args, " ") !in LoadUserNotes(uid).items ==> r == NoSuchNote(Join(args, " "))
      ensures |args| > 0 && Join(args, " ") in LoadUserNotes(uid).items ==>
        var name := Join(args, " ");
        var items := LoadUserNotes(uid).items[name];
        && (r == EmptyNote(name) <==> items == [])
        && (items != [] ==> r == Shown(name, Listing(items)))
    {
      if |args| < 1 then Usage(ShowUsage)
      else
        var name := Join(args, " ");
        var userNotes := LoadUserNotes(uid);
        if name in userNotes.items then
          var listing := Listing(userNotes.items[name]);
          if listing != "" then Shown(name, listing) else EmptyNote(name)
        else NoSuchNote(name)
    }

    /** `/note list`: the caller's note names, one per line, in the order they were created. */
    function ListNotes(uid: int): (r: Reply)
      reads this
      requires Valid()
      ensures r == NoNotes <==> LoadUserNotes(uid).items == map[]
      ensures r != NoNotes ==> r.NoteNames?
      ensures r.NoteNames? ==> r.names == Join(LoadUserNotes(uid).names, "\n")
      ensures r.NoteNames? && (forall i :: 0 <= i < |LoadUserNotes(uid).names| ==> '\n' !in LoadUserNotes(uid).names[i]) ==>
        Split(r.names, "\n") == LoadUserNotes(uid).names
    {
      var userNotes := LoadUserNotes(uid);
      if |userNotes.items| > 0 then
        var names := userNotes.names;
        assert names != [] by {
          var k :| k in userNotes.items;
          assert k in names;
        }
        SplitJoinLines(names);
        NoteNames(Join(names, "\n"))
      else
        NoNotes
    }
  
    /** What `CreateNote` replies and how it leaves the caller's notes. */
    twostate predicate CreateOutcome(uid: int, args: seq<string>, replies: seq<Reply>)
      requires old(Valid())
      reads this
    {
      && (|args| == 0 ==> replies == [Usage(CreateUsage)] && file == old(file))
      && (|args| > 0 ==>
         var name := Join(args, " ");
         var before := old(LoadUserNotes(uid));
         if name in before.items then
           replies == [AlreadyExists(name)] && file == old(file)
         else
           replies == [Created(name)] && file == old(file)[UserKey(uid) := before.WithNote(name)])
    }

    /** `/note create <name...>`: the name is all the words joined by spaces. */
    method CreateNote(uid: int, args: seq<string>) returns (replies: seq<Reply>)
      requires Valid()
      modifies this
      ensures Valid()
      ensures forall v :: v != uid ==> LoadUserNotes(v) == old(LoadUserNotes(v))
      ensures CreateOutcome(uid, args, replies)
    {
      if |args| < 1 {
        replies := [Usage(CreateUsage)];
        return;
      }
      var name := Join(args, " ");
      var userNotes := LoadUserNotes(uid);
      if name in userNotes.items {
        replies := [AlreadyExists(name)];
      } else {
        userNotes := userNotes.WithNote(name);
        SaveUserNotes(uid, userNotes);
        replies := [Created(name)];
      }
    }

    /** What `AddItem` replies and how it leaves the caller's notes. */
    twostate predicate AddOutcome(uid: int, args: seq<string>, replies: seq<Reply>)
      requires old(Valid())
      reads this
    {
      && (|args| < 2 ==> replies == [Usage(AddUsage)] && file == old(file))
      && (|args| >= 2 ==>
         var name := args[0];
         var item := Join(args[1..], " ");
         var before := old(LoadUserNotes(uid));
         if name in before.items then
           && file == old(file)[UserKey(uid) := before.Appended(name, item)]
           && replies == [Added(item, name), ShowNote(uid, [name])]
         else
           replies == [NoSuchNote(name)] && file == old(file))
    }

    /** `/note add <name> <item...>`: the name is the first word, the item the rest. On
        success the bot also shows the note. */
    method AddItem(uid: int, args: seq<string>) returns (replies: seq<Reply>)
      requires Valid()
      modifies this
      ensures Valid()
      ensures forall v :: v != uid ==> LoadUserNotes(v) == old(LoadUserNotes(v))
      ensures AddOutcome(uid, args, replies)
    {
      if |args| < 2 {
        replies := [Usage(AddUsage)];
        return;
      }
      var name := args[0];
      var item := Join(args[1..], " ");
      var userNotes := LoadUserNotes(uid);
      if name in userNotes.items {
        userNotes := userNotes.Appended(name, item);
        SaveUserNotes(uid, userNotes);
        var shown := ShowNote(uid, [name]);
        replies := [Added(item, name), shown];
      } else {
        replies := [NoSuchNote(name)];
      }
    }

    /** What `EditItem` replies and how it leaves the caller's notes. */
    twostate predicate EditOutcome(uid: int, args: seq<string>, replies: seq<Reply>)
      requires old(Valid())
      reads this
    {
      && (|args| < 3 ==> replies == [Usage(EditUsage)] && file == old(file))
      && (|args| >= 3 && ParseInt(args[1]).None? ==> replies == [NotAnInteger] && file == old(file))
      && (|args| >= 3 && ParseInt(args[1]).Some? ==>
         var name := args[0];
         var index := ParseInt(args[1]).value - 1;
         var text := Join(args[2..], " ");
         var before := old(LoadUserNotes(uid));
         if name in before.items && 0 <= index < |before.items[name]| then
           && file == old(file)[UserKey(uid) := before.Edited(name, index, text)]
           && replies == [Updated(index + 1, name), ShowNote(uid, [name])]
         else
           replies == [InvalidNoteOrItem] && file == old(file))
    }

    /** `/note edit <name> <number> <text...>`: item numbers count from 1. */
    method EditItem(uid: int, args: seq<string>) returns (replies: seq<Reply>)
      requires Valid()
      modifies this
      ensures Valid()
      ensures forall v :: v != uid ==> LoadUserNotes(v) == old(LoadUserNotes(v))
      ensures EditOutcome(uid, args, replies)
    {
      if |args| < 3 {
        replies := [Usage(EditUsage)];
        return;
      }
      var name := args[0];
      var number := ParseInt(args[1]);
      if number.None? {
        replies := [NotAnInteger];
        return;
      }
      var index := number.value - 1;
      var text := Join(args[2..], " ");
      var userNotes := LoadUserNotes(uid);
      if name in userNotes.items && 0 <= index < |userNotes.items[name]| {
        userNotes := userNotes.Edited(name, index, text);
        SaveUserNotes(uid, userNotes);
        var shown := ShowNote(uid, [name]);
        replies := [Updated(index + 1, name), shown];
      } else {
        replies := [InvalidNoteOrItem];
      }
    }

    /** What `RemoveItem` replies and how it leaves the caller's notes. */
    twostate predicate RemoveOutcome(uid: int, args: seq<string>, replies: seq<Reply>)
      requires old(Valid())
      reads this
    {
      && (|args| < 2 ==> replies == [Usage(RemoveUsage)] && file == old(file))
      && (|args| >= 2 && ParseInt(args[1]).None? ==> replies == [NotAnInteger] && file == old(file))
      && (|args| >= 2 && ParseInt(args[1]).Some? ==>
         var name := args[0];
         var index := ParseInt(args[1]).value - 1;
         var before := old(LoadUserNotes(uid));
         if name in before.items && 0 <= index < |before.items[name]| then
           && file == old(file)[UserKey(uid) := before.Removed(name, index)]
           && replies == [RemovedItem(before.items[name][index], name), ShowNote(uid, [name])]
         else
           replies == [InvalidNoteOrItem] && file == old(file))
    }

    /** `/note remove <name> <number>`: the reply names the item that was taken out. */
    method RemoveItem(uid: int, args: seq<string>) returns (replies: seq<Reply>)
      requires Valid()
      modifies this
      ensures Valid()
      ensures forall v :: v != uid ==> LoadUserNotes(v) == old(LoadUserNotes(v))
      ensures RemoveOutcome(uid, args, replies)
    {
      if |args| < 2 {
        replies := [Usage(RemoveUsage)];
        return;
      }
      var name := args[0];
      var number := ParseInt(args[1]);
      if number.None? {
        replies := [NotAnInteger];
        return;
      }
      var index := number.value - 1;
      var userNotes := LoadUserNotes(uid);
      if name in userNotes.items && 0 <= index < |userNotes.items[name]| {
        var removed := userNotes.items[name][index];
        userNotes := userNotes.Removed(name, index);
        SaveUserNotes(uid, userNotes);
        var shown := ShowNote(uid, [name]);
        replies := [RemovedItem(removed, name), shown];
      } else {
        replies := [InvalidNoteOrItem];
      }
    }

    /** What `DeleteNote` replies and how it leaves the caller's notes. */
    twostate predicate DeleteOutcome(uid: int, args: seq<string>, replies: seq<Reply>)
      requires old(Valid())
      reads this
    {
      && (var name := Join(args, " ");
               var before := old(LoadUserNotes(uid));
               if name in before.items then
                 && file == old(file)[UserKey(uid) := before.Without(name)]
                 && name !in LoadUserNotes(uid).items
                 && replies == [Deleted(name), ListNotes(uid)]
               else
                 replies == [NoSuchNoteToDelete(name)] && file == old(file))
    }

    /** `/note delete <name...>`: there is no usage check, so no words mean the name "".
        On success the bot also lists the remaining notes. */
    method DeleteNote(uid: int, args: seq<string>) returns (replies: seq<Reply>)
      requires Valid()
      modifies this
      ensures Valid()
      ensures forall v :: v != uid ==> LoadUserNotes(v) == old(LoadUserNotes(v))
      ensures DeleteOutcome(uid, args, replies)
    {
      var name := Join(args, " ");
      var userNotes := LoadUserNotes(uid);
      if name in userNotes.items {
        userNotes := userNotes.Without(name);
        SaveUserNotes(uid, userNotes);
        var listed := ListNotes(uid);
        replies := [Deleted(name), listed];
      } else {
        replies := [NoSuchNoteToDelete(name)];
      }
    }

    /** `note_handler`: the first word, lower-cased, picks the command; the other words are
        its arguments. No command changes another user's notes. */
    method NoteHandler(uid: int, words: seq<string>) returns (replies: seq<Reply>)
      requires Valid()
      modifies this
      ensures Valid()
      ensures forall v :: v != uid ==> LoadUserNotes(v) == old(LoadUserNotes(v))
      ensures |words| == 0 ==> replies == [NoteHelp] && file == old(file)
      ensures |words| > 0 && Lower(words[0]) == "create" ==> CreateOutcome(uid, words[1..], replies)
      ensures |words| > 0 && Lower(words[0]) == "add" ==> AddOutcome(uid, words[1..], replies)
      ensures |words| > 0 && Lower(words[0]) == "show" ==>
        replies == [old(ShowNote(uid, words[1..]))] && file == old(file)
      ensures |words| > 0 && Lower(words[0]) == "list" ==>
        replies == [old(ListNotes(uid))] && file == old(file)
      ensures |words| > 0 && Lower(words[0]) == "edit" ==> EditOutcome(uid, words[1..], replies)
      ensures |words| > 0 && Lower(words[0]) == "remove" ==> RemoveOutcome(uid, words[1..], replies)
      ensures |words| > 0 && Lower(words[0]) == "delete" ==> DeleteOutcome(uid, words[1..], replies)
      ensures |words| > 0 && Lower(words[0]) !in NoteCommands ==>
        replies == [InvalidSubcommand] && file == old(file)
    {
      if |words| < 1 {
        replies := [NoteHelp];
        return;
      }
      var command := Lower(words[0]);
      var args := words[1..];
      if command == "create" {
        replies := CreateNote(uid, args);
      } else if command == "add" {
        replies := AddItem(uid, args);
      } else if command == "show" {
        replies := [ShowNote(uid, args)];
      } else if command == "list" {
        replies := [ListNotes(uid)];
      } else if command == "edit" {
        replies := EditItem(uid, args);
      } else if command == "remove" {
        replies := RemoveItem(uid, args);
      } else if command == "delete" {
        replies := DeleteNote(uid, args);
      } else {
        replies := [InvalidSubcommand];
      }
    }
  }
}
