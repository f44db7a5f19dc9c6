/** The server's mutable state: the three package-level slices `userItems`,
    `messengerItems` and `deviceItems` as the fields of one store object, with the
    operations of the server as its methods. Each method is proved against the
    specification functions of UserStore, MessageStore and DeviceStore. */
module Server {
  import opened Items
  import opened Ids
  import opened Numbers
  import UserStore
  import MessageStore
  import DeviceStore

  /** The value of the three collections at one moment. */
  datatype Snapshot = Snapshot(users: seq<User>, messages: seq<Message>, devices: seq<Device>)

  predicate SnapshotValid(s: Snapshot) {
    UserStore.UsersValid(s.users) && MessageStore.MessagesValid(s.messages) &&
    DeviceStore.DevicesValid(s.devices)
  }

  /** The collections as the server starts. */
  const Seed: Snapshot := Snapshot(SeedUsers, SeedMessages, SeedDevices)

  lemma SeedValid()
    ensures SnapshotValid(Seed)
  {
    UserStore.SeedUsersValid();
    MessageStore.SeedMessagesValid();
    DeviceStore.SeedDevicesValid();
  }

  class Store {
    var users: seq<User>
    var messages: seq<Message>
    var devices: seq<Device>

    function State(): Snapshot
      reads this
    {
      Snapshot(users, messages, devices)
    }

    ghost predicate Valid()
      reads this
    {
      SnapshotValid(State())
    }

    /** The seeded collections. */
    constructor ()
      ensures State() == Seed && Valid()
    {
      users := SeedUsers;
      messages := SeedMessages;
      devices := SeedDevices;
      new;
      SeedValid();
    }

    /** `getOnlineUser`: every user except the one numbered like the caller. */
    method GetOnlineUser(userIdStr: string) returns (r: seq<User>)
      ensures r == UserStore.Others(users, ParseValidNumber(userIdStr))
      ensures forall u :: u in r <==> u in users && u.id != ParseValidNumber(userIdStr)
    {
      var userId := ParseValidNumber(userIdStr);
      r := [];
      var index := 0;
      while index < |users|
        invariant 0 <= index <= |users|
        invariant r == UserStore.Others(users[..index], userId)
      {
        assert users[..index + 1][..index] == users[..index];
        if users[index].id != userId {
          r := r + [users[index]];
        }
        index := index + 1;
      }
      assert users[..index] == users;
      forall u ensures u in r <==> u in users && u.id != userId {
        UserStore.OthersMembers(users, userId, u);
      }
    }

    /** `createUserID`: the largest user identifier (at least 0) plus one. */
    method CreateUserID() returns (id: int)
      ensures id == UserStore.NextUserId(users)
      ensures forall i :: 0 <= i < |users| ==> users[i].id < id
    {
      ghost var ids := UserStore.UserIds(users);
      var maxId := 0;
      var index := 0;
      while index < |users|
        invariant 0 <= index <= |users|
        invariant maxId == MaxId(ids[..index])
      {
        assert ids[..index + 1][..index] == ids[..index];
        if users[index].id > maxId {
          maxId := users[index].id;
        }
        index := index + 1;
      }
      assert ids[..index] == ids;
      id := maxId + 1;
    }

    /** `addUser`: the first user with this name, or a new offline user appended with
        a fresh identifier. */
    method AddUser(username: string) returns (user: User)
      requires Valid()
      modifies this
      ensures Valid()
      ensures (user, users) == UserStore.AddUser(old(users), username)
      ensures messages == old(messages) && devices == old(devices)
    {
      var index := 0;
      while index < |users|
        invariant 0 <= index <= |users|
        invariant forall j :: 0 <= j < index ==> users[j].username != username
      {
        if users[index].username == username {
          user := users[index];
          return;
        }
        index := index + 1;
      }
      var id := CreateUserID();
      user := User(id, username, false);
      users := users + [user];
      UserStore.AddUserSpec(old(users), username);
    }

    /** `createMessageID`: the largest message identifier (at least 0) plus one. */
    method CreateMessageID() returns (id: int)
      ensures id == MessageStore.NextMessageId(messages)
      ensures forall i :: 0 <= i < |messages| ==> messages[i].id < id
    {
      ghost var ids := MessageStore.MessageIds(messages);
      var maxId := 0;
      var index := 0;
      while index < |messages|
        invariant 0 <= index <= |messages|
        invariant maxId == MaxId(ids[..index])
      {
        assert ids[..index + 1][..index] == ids[..index];
        if messages[index].id > maxId {
          maxId := messages[index].id;
        }
        index := index + 1;
      }
      assert ids[..index] == ids;
      id := maxId + 1;
    }

    /** `sendMessage`: appends the sender's self copy, then the receiver's peer copy,
        each with a freshly allocated identifier, and returns the peer copy. */
    method SendMessage(userIdStr: string, toUserIdStr: string, messageText: string) returns (m: Message)
      requires Valid()
      modifies this
      ensures Valid()
      ensures (m, messages) == MessageStore.Send(old(messages), ParseValidNumber(userIdStr),
                                                  ParseValidNumber(toUserIdStr), messageText)
      ensures users == old(users) && devices == old(devices)
    {
      var userId := ParseValidNumber(userIdStr);
      var toUserId := ParseValidNumber(toUserIdStr);
      ghost var before := messages;
      ghost var (peer, after) := MessageStore.Send(before, userId, toUserId, messageText);
      MessageStore.SendSpec(before, userId, toUserId, messageText);
      var selfId := CreateMessageID();
      var self := Message(selfId, messageText, toUserId, userId, true);
      messages := messages + [self];
      assert messages == after[..|before| + 1];
      var peerId := CreateMessageID();
      assert peerId == peer.id;
      m := Message(peerId, messageText, userId, toUserId, false);
      messages := messages + [m];
      assert messages == after;
    }

    /** The two-stage filter at the start of `getMessages`: first the messages delivered
        to `userId`, then of those the ones filed under `toUserId`, in store order. */
    method FilterMessages(userId: int, toUserId: int) returns (resultItems: seq<Message>)
      ensures resultItems == MessageStore.Conversation(messages, userId, toUserId)
      ensures forall m :: m in resultItems <==> m in messages && m.toUserId == userId && m.userId == toUserId
    {
      var temp := [];
      var index := 0;
      while index < |messages|
        invariant 0 <= index <= |messages|
        invariant temp == MessageStore.Delivered(messages[..index], userId)
      {
        assert messages[..index + 1][..index] == messages[..index];
        if messages[index].toUserId == userId {
          temp := temp + [messages[index]];
        }
        index := index + 1;
      }
      assert messages[..index] == messages;

      resultItems := [];
      var i := 0;
      while i < |temp|
        invariant 0 <= i <= |temp|
        invariant resultItems == MessageStore.FiledUnder(temp[..i], toUserId)
      {
        assert temp[..i + 1][..i] == temp[..i];
        if temp[i].userId == toUserId {
          resultItems := resultItems + [temp[i]];
        }
        i := i + 1;
      }
      assert temp[..i] == temp;
      MessageStore.TwoStageIsConversation(messages, userId, toUserId);
      forall m ensures m in resultItems <==> m in messages && m.toUserId == userId && m.userId == toUserId {
        MessageStore.ConversationMembers(messages, userId, toUserId, m);
      }
    }

    /** `getMessages`: the messages delivered to the caller and filed under the
        counterpart, with the administrator's auto-reply (one greeting, then the query
        once more) and the single-result answer for the device-class caller. */
    method GetMessages(userIdStr: string, toUserIdStr: string) returns (r: seq<Message>)
      requires Valid()
      modifies this
      ensures Valid()
      ensures (r, messages) == MessageStore.GetMessages(old(messages), ParseValidNumber(userIdStr),
                                                         ParseValidNumber(toUserIdStr))
      ensures users == old(users) && devices == old(devices)
      decreases if ParseValidNumber(toUserIdStr) == AdminUserId &&
                   MessageStore.Conversation(messages, ParseValidNumber(userIdStr), AdminUserId) == []
                then 1 else 0
    {
      var userId := ParseValidNumber(userIdStr);
      var toUserId := ParseValidNumber(toUserIdStr);
      var resultItems := FilterMessages(userId, toUserId);

      if toUserId == AdminUserId {
        if |resultItems| == 0 {
          var _ := SendMessage(toUserIdStr, userIdStr, AdminGreeting);
          MessageStore.AdminNeverSilent(old(messages), userId);
          r := GetMessages(userIdStr, toUserIdStr);
          return;
        }
      }

      if userId == DeviceClassUserId {
        if |resultItems| == 0 {
          return [NoData];
        }
        return [resultItems[|resultItems| - 1]];
      }
      return resultItems;
    }

    /** The linear scan the device operations share: the first device numbered `id`. */
    method LocateDevice(id: int) returns (found: bool, index: nat)
      ensures found ==> index < |devices| && devices[index].id == id &&
                        forall j :: 0 <= j < index ==> devices[j].id != id
      ensures !found ==> forall j :: 0 <= j < |devices| ==> devices[j].id != id
    {
      index := 0;
      while index < |devices|
        invariant 0 <= index <= |devices|
        invariant forall j :: 0 <= j < index ==> devices[j].id != id
      {
        if devices[index].id == id {
          return true, index;
        }
        index := index + 1;
      }
      found := false;
    }

    /** `deviceSendCommand`: overwrites value and text of the device in place; an
        unknown device is reported and not created. */
    method DeviceSendCommand(deviceIdStr: string, valueStr: string, textStr: string)
      returns (message: string, id: int, value: int)
      requires Valid()
      modifies this
      ensures Valid()
      ensures (message, id, value) == DeviceStore.CommandReply(old(devices), ParseValidNumber(deviceIdStr),
                                                               ParseValidNumber(valueStr))
      ensures devices == DeviceStore.AfterCommand(old(devices), ParseValidNumber(deviceIdStr),
                                                  ParseValidNumber(valueStr), textStr)
      ensures users == old(users) && messages == old(messages)
    {
      id := ParseValidNumber(deviceIdStr);
      value := ParseValidNumber(valueStr);
      DeviceStore.CommandSpec(devices, id, value, textStr);
      var found, index := LocateDevice(id);
      if found {
        devices := devices[index := devices[index].(value := value, text := textStr)];
        message := "Device found";
        return;
      }
      message := "no device";
    }

    /** `deviceGetValue`: the stored value, or "missing" after inserting a zero device. */
    method DeviceGetValue(idStr: string) returns (message: string, id: int, value: int)
      requires Valid()
      modifies this
      ensures Valid()
      ensures (message, id, value) == DeviceStore.GetValue(old(devices), ParseValidNumber(idStr))
      ensures devices == DeviceStore.AfterRead(old(devices), ParseValidNumber(idStr))
      ensures users == old(users) && messages == old(messages)
    {
      id := ParseValidNumber(idStr);
      DeviceStore.ReadSpec(devices, id);
      var found, index := LocateDevice(id);
      if found {
        return "OK", id, devices[index].value;
      }
      devices := devices + [Device(id, 0, "")];
      message, value := "missing", 0;
    }

    /** `deviceGetText`: the stored text, or "missing" and "--" after inserting a zero
        device. */
    method DeviceGetText(idStr: string) returns (message: string, id: int, text: string)
      requires Valid()
      modifies this
      ensures Valid()
      ensures (message, id, text) == DeviceStore.GetText(old(devices), ParseValidNumber(idStr))
      ensures devices == DeviceStore.AfterRead(old(devices), ParseValidNumber(idStr))
      ensures users == old(users) && messages == old(messages)
    {
      id := ParseValidNumber(idStr);
      DeviceStore.ReadSpec(devices, id);
      var found, index := LocateDevice(id);
      if found {
        return "OK", id, devices[index].text;
      }
      devices := devices + [Device(id, 0, "")];
      message, text := "missing", "--";
    }

    /** `deviceGet`: value and text, or "missing" after inserting a zero device. */
    method DeviceGet(idStr: string) returns (message: string, id: int, value: int, text: string)
      requires Valid()
      modifies this
      ensures Valid()
      ensures (message, id, value, text) == DeviceStore.GetBoth(old(devices), ParseValidNumber(idStr))
      ensures devices == DeviceStore.AfterRead(old(devices), ParseValidNumber(idStr))
      ensures users == old(users) && messages == old(messages)
    {
      id := ParseValidNumber(idStr);
      DeviceStore.ReadSpec(devices, id);
      var found, index := LocateDevice(id);
      if found {
        return "OK", id, devices[index].value, devices[index].text;
      }
      devices := devices + [Device(id, 0, "")];
      message, value, text := "missing", 0, "--";
    }
  }
}
