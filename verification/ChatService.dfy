/** The chat service over its stored conversations. */
module ChatService {
  import opened Common
  import M = ChatMessages
  import opened ChatLedger

  method ReadPage(stored: seq<M.Stamp>, cursor: M.Cursor, limit: Option<int>, offset: Option<int>)
    returns (r: Result<M.Page>)
    ensures r == M.List(stored, cursor, limit, offset)
  {
    var size := Min(Max(if limit.Some? then limit.value else 24, 1), 100);
    var skip := Max(if offset.Some? then offset.value else 0, 0);
    if cursor == M.Malformed || cursor == M.BadDate { return Err(BadRequest); }
    var docs := M.NewestFirst(M.Matching(stored, cursor));
    if cursor == M.Absent && skip > 0 {
      docs := docs[Min(skip, |docs|)..];
    }
    docs := docs[..Min(size + 1, |docs|)];
    if |docs| > size {
      r := Ok(M.Page(docs[..size], Some(docs[size - 1])));
    } else {
      r := Ok(M.Page(docs, None));
    }
  }

  class ChatsService {
    var conversations: map<nat, Conversation>

    constructor ()
      ensures conversations == map[]
    {
      conversations := map[];
    }

    method GetConversationById(id: nat, user: UserId) returns (r: Result<Conversation>)
      ensures id !in conversations ==> r == Err(NotFound)
      ensures id in conversations ==>
        r == if Participant(conversations[id], user) then Ok(conversations[id]) else Err(Forbidden)
    {
      if id !in conversations { return Err(NotFound); }
      if !Participant(conversations[id], user) { return Err(Forbidden); }
      r := Ok(conversations[id]);
    }

    method SendMessage(id: nat, sender: UserId, payload: Payload, stamp: M.Stamp) returns (r: Result<Message>)
      modifies this
      ensures id !in old(conversations) ==> r == Err(NotFound) && conversations == old(conversations)
      ensures id in old(conversations) ==>
        match Send(old(conversations)[id], sender, payload, stamp)
        case Ok(c) => r == Ok(Message(stamp, sender, Sent)) && conversations == old(conversations)[id := c]
        case Err(e) => r == Err(e) && conversations == old(conversations)
    {
      var thread :- GetConversationById(id, sender);
      if payload.attachments > 5 { return Err(BadRequest); }
      if !payload.hasText && payload.attachments == 0 { return Err(BadRequest); }
      var created := Message(stamp, sender, Sent);
      var unread := UnreadRecord(thread);
      var recipient := if sender == thread.clientId then thread.providerUserId else thread.clientId;
      unread := unread[sender := 0];
      unread := unread[recipient := unread[recipient] + 1];
      conversations := conversations[id := WithUnread(thread, unread).(messages := thread.messages + [created])];
      r := Ok(created);
    }

    method MarkAsRead(id: nat, user: UserId) returns (r: Result<Conversation>)
      modifies this
      ensures id !in old(conversations) ==> r == Err(NotFound) && conversations == old(conversations)
      ensures id in old(conversations) ==>
        && r == MarkRead(old(conversations)[id], user)
        && conversations == if r.Ok? then old(conversations)[id := r.value] else old(conversations)
    {
      var thread :- GetConversationById(id, user);
      var unread := UnreadRecord(thread);
      unread := unread[user := 0];
      conversations := conversations[id := thread.(messages := Marked(thread.messages, user, Read))];
      conversations := conversations[id := WithUnread(conversations[id], unread)];
      r := Ok(conversations[id]);
    }

    /** Delivery is marked before the cursor is read, so also by a request whose cursor is refused. */
    method ListMessages(id: nat, user: UserId, cursor: M.Cursor, limit: Option<int>, offset: Option<int>)
      returns (r: Result<M.Page>)
      modifies this
      ensures id !in old(conversations) ==> r == Err(NotFound) && conversations == old(conversations)
      ensures id in old(conversations) ==>
        match Fetch(old(conversations)[id], user)
        case Ok(c) => conversations == old(conversations)[id := c]
          && r == M.List(Stamps(c.messages), cursor, limit, offset)
        case Err(e) => r == Err(e) && conversations == old(conversations)
    {
      var thread :- GetConversationById(id, user);
      conversations := conversations[id := thread.(messages := Marked(thread.messages, user, Delivered))];
      r := ReadPage(Stamps(conversations[id].messages), cursor, limit, offset);
    }
  }
}
