/** The messages the bot sends back for the note and quote commands. A `Reply` names the
    message and carries its data; `Text` gives the exact text the bot sends. */
module Replies {
  import opened Numbers

  const CreateUsage: string := "Usage: /note create <Note Name>"
  const AddUsage: string := "Usage: /note add <Note Name> <Item>"
  const ShowUsage: string := "Usage: /note show <Note Name>"
  const EditUsage: string := "Usage: /note edit <Note Name> <Item Number> <New Text>"
  const RemoveUsage: string := "Usage: /note remove <Note Name> <Item Number>"

  datatype Reply =
    // note commands
    | Usage(usage: string)
    | AlreadyExists(name: string)
    | Created(name: string)
    | Added(item: string, name: string)
    | NoSuchNote(name: string)
    | Shown(name: string, listing: string)
    | EmptyNote(name: string)
    | NoteNames(names: string)
    | NoNotes
    | NotAnInteger
    | Updated(number: int, name: string)
    | InvalidNoteOrItem
    | RemovedItem(item: string, name: string)
    | Deleted(name: string)
    | NoSuchNoteToDelete(name: string)
    | NoteHelp
    | InvalidSubcommand
    // quote subscription commands
    | QuoteHelp
    | SubscribedNow
    | AlreadySubscribed
    | UnsubscribedNow
    | NotSubscribed
    | StatusSubscribed
    | StatusNotSubscribed
    | QuoteInvalid
  {
    function Text(): string
    {
      match this
      case Usage(usage) => usage
      case AlreadyExists(name) => "'" + name + "' already exists!"
      case Created(name) => "Note '" + name + "' created successfully!"
      case Added(item, name) => "Added '" + item + "' to '" + name + "'."
      case NoSuchNote(name) => "Note '" + name + "' does not exist!"
      case Shown(name, listing) => "\U{1F4DC} " + name + ":\n" + listing
      case EmptyNote(name) => "'" + name + "' is empty."
      case NoteNames(names) => "\U{1F4DD} Notes:\n" + names
      case NoNotes => "No notes available."
      case NotAnInteger => "Item number must be a valid integer."
      case Updated(number, name) => "Updated item " + IntToString(number) + " in '" + name + "'."
      case InvalidNoteOrItem => "Invalid note or item number."
      case RemovedItem(item, name) => "Removed '" + item + "' from '" + name + "'."
      case Deleted(name) => "Deleted note '" + name + "'."
      case NoSuchNoteToDelete(name) => "Note '" + name + "' does not exist."
      case NoteHelp =>
        "Note Management Commands:\n"
        + "/note create <Note Name> - Create a new note\n"
        + "/note add <Note Name> <Item> - Add an item to a note\n"
        + "/note show <Note Name> - Show all items in a note\n"
        + "/note list - List all notes\n"
        + "/note edit <Note Name> <Item Number> <New Text> - Edit an item in a note\n"
        + "/note remove <Note Name> <Item Number> - Remove an item from a note\n"
        + "/note delete <Note Name> - Delete an entire note"
      case InvalidSubcommand => "Invalid subcommand. Use /note to see available commands."
      case QuoteHelp =>
        "Welcome to the Daily Quote Service!\n\n"
        + "This is a subscription-based service that sends you an inspiring quote every day at 10:15 am.\n\n"
        + "You can manage your subscription using the following commands:\n"
        + "/quote subscribe - Subscribe to daily quotes\n"
        + "/quote unsubscribe - Unsubscribe from daily quotes\n"
        + "/quote status - Check your subscription status"
      case SubscribedNow => "You have successfully subscribed to the daily quote!"
      case AlreadySubscribed => "You are already subscribed."
      case UnsubscribedNow => "You have successfully unsubscribed from the daily quote."
      case NotSubscribed => "You are not subscribed to the daily quote."
      case StatusSubscribed => "You are currently subscribed to the daily quote."
      case StatusNotSubscribed => "You are not subscribed to the daily quote. Use /quote subscribe to subscribe."
      case QuoteInvalid =>
        "Invalid command. Use:\n"
        + "/quote subscribe - Subscribe to daily quote\n"
        + "/quote unsubscribe - Unsubscribe from daily quote\n"
        + "/quote status - Check your subscription status"
    }
  }

  /** A shown note ends with its listing, after the name; the note list ends with the names. */
  lemma ListingsEndTexts(name: string, listing: string, names: string)
    ensures var t := Shown(name, listing).Text();
      |t| >= |listing| && t[|t| - |listing|..] == listing && t[2..2 + |name|] == name
    ensures var t := NoteNames(names).Text(); |t| >= |names| && t[|t| - |names|..] == names
  {
    var t := Shown(name, listing).Text();
    assert t == "\U{1F4DC} " + name + ":\n" + listing;
    assert t[|t| - |listing|..] == listing;
    assert t[2..2 + |name|] == name;
    var u := NoteNames(names).Text();
    assert u == "\U{1F4DD} Notes:\n" + names;
    assert u[|u| - |names|..] == names;
  }

  /** The create replies quote the note's name right after their opening words. */
  lemma CreateRepliesQuoteNote(name: string)
    ensures AlreadyExists(name).Text()[1..1 + |name|] == name
    ensures Created(name).Text()[6..6 + |name|] == name
  {
    assert AlreadyExists(name).Text() == "'" + name + "' already exists!";
    assert Created(name).Text() == "Note '" + name + "' created successfully!";
  }

  /** The missing-note and empty-note replies quote the note's name right after their opening
      words. */
  lemma ShowRepliesQuoteNote(name: string)
    ensures NoSuchNote(name).Text()[6..6 + |name|] == name
    ensures EmptyNote(name).Text()[1..1 + |name|] == name
  {
    assert NoSuchNote(name).Text() == "Note '" + name + "' does not exist!";
    assert EmptyNote(name).Text() == "'" + name + "' is empty.";
  }

  /** The delete replies quote the note's name right after their opening words. */
  lemma DeleteRepliesQuoteNote(name: string)
    ensures Deleted(name).Text()[14..14 + |name|] == name
    ensures NoSuchNoteToDelete(name).Text()[6..6 + |name|] == name
  {
    assert Deleted(name).Text() == "Deleted note '" + name + "'.";
    assert NoSuchNoteToDelete(name).Text() == "Note '" + name + "' does not exist.";
  }

  /** The add confirmation quotes the item right after its opening words. */
  lemma AddedQuotesItem(item: string, name: string)
    ensures Added(item, name).Text()[7..7 + |item|] == item
  {
    var added := Added(item, name).Text();
    assert added == "Added '" + item + ("' to '" + name + "'.");
    assert added[..7 + |item|] == "Added '" + item;
  }

  /** The remove confirmation quotes the removed item right after its opening words. */
  lemma RemovedQuotesItem(item: string, name: string)
    ensures RemovedItem(item, name).Text()[9..9 + |item|] == item
  {
    var removed := RemovedItem(item, name).Text();
    assert removed == "Removed '" + item + ("' from '" + name + "'.");
    assert removed[..9 + |item|] == "Removed '" + item;
  }
}
