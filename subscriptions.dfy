/** The daily-quote subscription list behind the `/quote` command (server.py:278-336): the
    ids of the subscribed users, kept in a file. Subscribe and unsubscribe rewrite it whole
    when they change it; status and the refusals only read it, and help and an unknown
    subcommand do not touch it. */
module Subscriptions {
  import opened Seqs
  import opened Replies

  class SubscriberList {
    /** The contents of the subscription file. A missing file reads as the empty list. */
    var users: seq<int>

    /** The list before the subscription file exists. */
    constructor ()
      ensures users == []
    {
      users := [];
    }

    /** `/quote status`: a membership test that changes nothing. */
    function Status(uid: int): (r: Reply)
      reads this
      ensures r == StatusSubscribed || r == StatusNotSubscribed
      ensures r == StatusSubscribed <==> uid in users
    {
      if uid in users then StatusSubscribed else StatusNotSubscribed
    }

    /** `/quote subscribe`: append the id unless it is already there. A list that never held
        a duplicate still holds none, and the id is in it exactly once. */
    method Subscribe(uid: int) returns (r: Reply)
      modifies this
      ensures uid in old(users) ==> r == AlreadySubscribed && users == old(users)
      ensures uid !in old(users) ==> r == SubscribedNow && users == old(users) + [uid]
      ensures uid in users
      ensures Distinct(old(users)) ==> Distinct(users) && multiset(users)[uid] == 1
    {
      var subscribed := users;
      if uid !in subscribed {
        subscribed := subscribed + [uid];
        users := subscribed;
        r := SubscribedNow;
      } else {
        r := AlreadySubscribed;
      }
      if Distinct(old(users)) && uid in old(users) {
        var i := IndexOf(old(users), uid);
        assert old(users) == old(users)[..i] + [uid] + old(users)[i + 1..];
        assert uid !in old(users)[i + 1..];
      }
    }

    /** `/quote unsubscribe`: remove the first occurrence of the id, if there is one. A list
        without duplicates no longer holds the id afterwards. */
    method Unsubscribe(uid: int) returns (r: Reply)
      modifies this
      ensures uid in old(users) ==> r == UnsubscribedNow && users == RemoveFirst(old(users), uid)
      ensures uid !in old(users) ==> r == NotSubscribed && users == old(users)
      ensures multiset(users) == multiset(old(users)) - multiset{uid}
      ensures Distinct(old(users)) ==> Distinct(users) && uid !in users
    {
      var subscribed := users;
      if uid in subscribed {
        if Distinct(subscribed) {
          RemoveFirstDistinct(subscribed, uid);
        }
        subscribed := RemoveFirst(subscribed, uid);
        users := subscribed;
        r := UnsubscribedNow;
      } else {
        r := NotSubscribed;
      }
    }

    /** `quote`: the first word, compared exactly, picks the subcommand; later words are ignored. */
    method Quote(uid: int, args: seq<string>) returns (r: Reply)
      modifies this
      ensures |args| == 0 ==> r == QuoteHelp && users == old(users)
      ensures |args| > 0 && args[0] == "subscribe" ==>
        if uid in old(users) then r == AlreadySubscribed && users == old(users)
        else r == SubscribedNow && users == old(users) + [uid]
      ensures |args| > 0 && args[0] == "unsubscribe" ==>
        if uid in old(users) then r == UnsubscribedNow && users == RemoveFirst(old(users), uid)
        else r == NotSubscribed && users == old(users)
      ensures |args| > 0 && args[0] == "status" ==> r == old(Status(uid)) && users == old(users)
      ensures |args| > 0 && args[0] !in {"subscribe", "unsubscribe", "status"} ==>
        r == QuoteInvalid && users == old(users)
    {
      if |args| == 0 {
        r := QuoteHelp;
      } else if args[0] == "subscribe" {
        r := Subscribe(uid);
      } else if args[0] == "unsubscribe" {
        r := Unsubscribe(uid);
      } else if args[0] == "status" {
        r := Status(uid);
      } else {
        r := QuoteInvalid;
      }
    }
  }
}
