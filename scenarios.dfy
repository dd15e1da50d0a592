/** Clients of the note store and the subscription list: what a caller can conclude from
    the contracts alone for two runs of commands. One user creates a note "groceries", adds
    "milk" and "eggs", edits item 1, removes item 1, tries to remove a missing item 2 and
    deletes the note. One user subscribes to the daily quote twice and then unsubscribes. */
module Scenarios {
  import opened Notes
  import opened Replies
  import opened Subscriptions
  import opened Numbers
  import opened Text

  /** The user's notebook holds the single note "groceries", with these items. */
  ghost predicate OnlyGroceries(nb: Notebook, items: seq<string>)
  {
    nb.Valid() && nb.names == ["groceries"] && "groceries" in nb.items && nb.items["groceries"] == items
  }

  /** The integers the walkthrough below types as item numbers. */
  lemma SmallNumbers()
    ensures ParseInt("1") == Some(1) && ParseInt("2") == Some(2)
  {
    ParseIntOfString(1);
    ParseIntOfString(2);
    assert IntToString(1) == "1" && IntToString(2) == "2";
  }

  /** What the edit command's words say: the note, the item number 1 and the new text. */
  lemma EditWords(args: seq<string>)
    requires args == ["groceries", "1", "oat", "milk"]
    ensures |args| == 4 && args[0] == "groceries" && ParseInt(args[1]) == Some(1)
    ensures Join(args[2..], " ") == "oat milk"
  {
    assert args[1] == "1";
    SmallNumbers();
    OatMilk(args[2..]);
  }

  lemma OatMilk(words: seq<string>)
    requires words == ["oat", "milk"]
    ensures Join(words, " ") == "oat milk"
  {
    assert words[1..] == ["milk"];
  }

  /** The listing after the two adds. */
  lemma TwoItemListing()
    ensures Listing(["milk", "eggs"]) == "1. milk\n2. eggs"
  {
    assert IntToString(1) == "1" && IntToString(2) == "2";
    assert RenderLine(1, "milk") == "1. milk" && RenderLine(2, "eggs") == "2. eggs";
    assert |RenderItems(["milk", "eggs"])| == 2;
    assert RenderItems(["milk", "eggs"]) == ["1. milk", "2. eggs"];
  }

  /** The listing after the edit. */
  lemma EditedListing()
    ensures Listing(["oat milk", "eggs"]) == "1. oat milk\n2. eggs"
  {
    assert IntToString(1) == "1" && IntToString(2) == "2";
    assert RenderLine(1, "oat milk") == "1. oat milk" && RenderLine(2, "eggs") == "2. eggs";
    assert |RenderItems(["oat milk", "eggs"])| == 2;
    assert RenderItems(["oat milk", "eggs"]) == ["1. oat milk", "2. eggs"];
  }

  /** The listing after the removal. */
  lemma OneItemListing()
    ensures Listing(["eggs"]) == "1. eggs"
  {
    assert IntToString(1) == "1";
    assert RenderLine(1, "eggs") == "1. eggs";
    assert |RenderItems(["eggs"])| == 1;
    assert RenderItems(["eggs"]) == ["1. eggs"];
  }

  /** create a note twice: the second create is refused. */
  method GroceriesCreate(uid: int) returns (store: NoteStore, second: seq<Reply>)
    ensures fresh(store) && store.Valid()
    ensures OnlyGroceries(store.LoadUserNotes(uid), [])
    ensures second == [AlreadyExists("groceries")]
  {
    store := new NoteStore();
    var r := store.CreateNote(uid, ["groceries"]);
    assert Join(["groceries"], " ") == "groceries";
    second := store.CreateNote(uid, ["groceries"]);
  }

  /** add one item to the note: it is appended, and the note is shown with it. */
  method GroceriesAdd(store: NoteStore, uid: int, items: seq<string>, item: string) returns (shown: Reply)
    requires store.Valid()
    requires OnlyGroceries(store.LoadUserNotes(uid), items)
    modifies store
    ensures store.Valid()
    ensures OnlyGroceries(store.LoadUserNotes(uid), items + [item])
    ensures shown == Shown("groceries", Listing(items + [item]))
  {
    var args := ["groceries", item];
    assert args[1..] == [item];
    var r := store.AddItem(uid, args);
    assert Join(["groceries"], " ") == "groceries";
    shown := r[1];
  }

  /** two adds to a new note. */
  method GroceriesCreateAndAdd(uid: int) returns (store: NoteStore, shown: Reply)
    ensures fresh(store) && store.Valid()
    ensures OnlyGroceries(store.LoadUserNotes(uid), ["milk", "eggs"])
    ensures shown == Shown("groceries", "1. milk\n2. eggs")
  {
    var second;
    store, second := GroceriesCreate(uid);
    shown := GroceriesAdd(store, uid, [], "milk");
    assert [] + ["milk"] == ["milk"];
    shown := GroceriesAdd(store, uid, ["milk"], "eggs");
    assert ["milk"] + ["eggs"] == ["milk", "eggs"];
    TwoItemListing();
  }

  /** edit the first item: only that line of the shown note changes. */
  method GroceriesEdit(store: NoteStore, uid: int) returns (r: seq<Reply>)
    requires store.Valid()
    requires OnlyGroceries(store.LoadUserNotes(uid), ["milk", "eggs"])
    modifies store
    ensures store.Valid()
    ensures OnlyGroceries(store.LoadUserNotes(uid), ["oat milk", "eggs"])
    ensures r == [Updated(1, "groceries"), Shown("groceries", "1. oat milk\n2. eggs")]
  {
    var args := ["groceries", "1", "oat", "milk"];
    EditWords(args);
    ghost var before := store.LoadUserNotes(uid);
    ghost var after := before.Edited("groceries", 0, "oat milk");
    assert after.items["groceries"] == ["oat milk", "eggs"];
    r := store.EditItem(uid, args);
    assert store.LoadUserNotes(uid) == after;
    EditedListing();
    assert r[1] == Shown("groceries", "1. oat milk\n2. eggs");
  }

  /** remove the first item: the one left behind is renumbered from 1. */
  method GroceriesRemove(store: NoteStore, uid: int) returns (r: seq<Reply>)
    requires store.Valid()
    requires OnlyGroceries(store.LoadUserNotes(uid), ["oat milk", "eggs"])
    modifies store
    ensures store.Valid()
    ensures OnlyGroceries(store.LoadUserNotes(uid), ["eggs"])
    ensures r == [RemovedItem("oat milk", "groceries"), Shown("groceries", "1. eggs")]
  {
    SmallNumbers();
    ghost var before := store.LoadUserNotes(uid);
    var args := ["groceries", "1"];
    assert args[0] == "groceries" && ParseInt(args[1]) == Some(1);
    assert before.items["groceries"][0] == "oat milk";
    ghost var after := before.Removed("groceries", 0);
    assert after.items["groceries"] == ["eggs"];
    r := store.RemoveItem(uid, args);
    assert r[0] == RemovedItem("oat milk", "groceries");
    assert store.LoadUserNotes(uid) == after;
    OneItemListing();
    assert r[1] == Shown("groceries", "1. eggs");
  }

  /** An item number next to an ASCII separator character is not an integer: refused, and
      nothing changes. */
  method EditSeparatedNumber(store: NoteStore, uid: int)
    requires store.Valid()
    modifies store
    ensures store.Valid()
    ensures store.file == old(store.file)
  {
    ParseIntBlanks();
    var r := store.EditItem(uid, ["groceries", "\U{1C}7", "tea"]);
    assert r == [NotAnInteger];
  }

  /** An item number longer than `int()`'s digit limit is not an integer: refused, and nothing
      changes. */
  method EditLongNumber(store: NoteStore, uid: int)
    requires store.Valid()
    modifies store
    ensures store.Valid()
    ensures store.file == old(store.file)
  {
    ParseIntDigitLimit();
    var r := store.EditItem(uid, ["groceries", seq(MaxStrDigits + 1, i => '1'), "tea"]);
    assert r == [NotAnInteger];
  }

  /** remove an item number past the end: refused, and nothing changes. */
  method GroceriesRemovePastEnd(store: NoteStore, uid: int)
    requires store.Valid()
    requires OnlyGroceries(store.LoadUserNotes(uid), ["eggs"])
    modifies store
    ensures store.Valid()
    ensures store.LoadUserNotes(uid) == old(store.LoadUserNotes(uid))
  {
    SmallNumbers();
    var r := store.RemoveItem(uid, ["groceries", "2"]);
    assert r == [InvalidNoteOrItem];
  }

  /** delete the note: it is gone, and showing it then reports that it does not exist. */
  method GroceriesDelete(store: NoteStore, uid: int)
    requires store.Valid()
    requires "groceries" in store.LoadUserNotes(uid).items
    modifies store
    ensures store.Valid()
    ensures "groceries" !in store.LoadUserNotes(uid).items
    ensures store.ShowNote(uid, ["groceries"]) == NoSuchNote("groceries")
  {
    var r := store.DeleteNote(uid, ["groceries"]);
  }

  /** The whole run from a missing notes file: create, add "milk" and "eggs", edit item 1,
      remove item 1, refuse item 2, delete. The user ends without the note. */
  method Groceries(uid: int) returns (store: NoteStore)
    ensures store.Valid()
    ensures "groceries" !in store.LoadUserNotes(uid).items
    ensures store.ShowNote(uid, ["groceries"]) == NoSuchNote("groceries")
  {
    var shown, replies;
    store, shown := GroceriesCreateAndAdd(uid);
    replies := GroceriesEdit(store, uid);
    replies := GroceriesRemove(store, uid);
    GroceriesRemovePastEnd(store, uid);
    GroceriesDelete(store, uid);
  }

  /** Subscribing twice leaves one entry, and the second subscribe is refused; unsubscribing
      takes it out again, and the status then says not subscribed. */
  method SubscribeTwice(uid: int) returns (list: SubscriberList, second: Reply)
    ensures second == AlreadySubscribed
    ensures list.users == [] && list.Status(uid) == StatusNotSubscribed
  {
    list := new SubscriberList();
    var r := list.Subscribe(uid);
    second := list.Subscribe(uid);
    assert list.users == [uid];
    r := list.Unsubscribe(uid);
  }
}
