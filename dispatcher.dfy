/** The command router `getJSONnResult`: an exact match of the request path against
    nine commands, each answered with a response envelope. The envelopes are modelled
    as a datatype in place of their JSON encoding. */
module Dispatcher {
  import opened Items
  import opened Numbers
  import opened Server
  import UserStore
  import MessageStore
  import DeviceStore

  /** The response envelopes, one constructor per Go response type, plus the bare
      text answered for an empty command. */
  datatype Response =
    | PlainText(body: string)
    | ErrorResponse(success: bool, reason: string)
    | UsersResponse(success: bool, users: seq<User>)
    | MessagesResponse(success: bool, messages: seq<Message>)
    | SendMessageResponse(success: bool, message: Message, value: int)
    | DeviceResponse(success: bool, id: int, content: string, value: int, text: string)
    | DevicesResponse(success: bool, devices: seq<Device>)

  /** The routes of the command switch. */
  datatype Route =
    | NoCommand | GetAllUsers | GetMessages | AddUser | SendMessage | DeviceGetAll
    | DeviceSendCommand | DeviceGetValue | DeviceGetText | DeviceGet | Unknown

  /** The command table: the exact path of each route. */
  function PathOf(route: Route): string {
    match route
    case NoCommand => ""
    case GetAllUsers => "/getAllUsers"
    case GetMessages => "/getMessages"
    case AddUser => "/addUser"
    case SendMessage => "/sendMessage"
    case DeviceGetAll => "/deviceGetAll"
    case DeviceSendCommand => "/deviceSendCommand"
    case DeviceGetValue => "/deviceGetValue"
    case DeviceGetText => "/deviceGetText"
    case DeviceGet => "/deviceGet"
    case Unknown => "?"
  }

  /** The route a request path takes: an exact, case-sensitive match. */
  function RouteOf(command: string): Route {
    if command == "" then NoCommand
    else if command == "/getAllUsers" then GetAllUsers
    else if command == "/getMessages" then GetMessages
    else if command == "/addUser" then AddUser
    else if command == "/sendMessage" then SendMessage
    else if command == "/deviceGetAll" then DeviceGetAll
    else if command == "/deviceSendCommand" then DeviceSendCommand
    else if command == "/deviceGetValue" then DeviceGetValue
    else if command == "/deviceGetText" then DeviceGetText
    else if command == "/deviceGet" then DeviceGet
    else Unknown
  }

  const UnknownCommandPrefix: string := "no case for this command: "

  /** One request: the response and the collections afterwards. The query parameters
      arrive as the raw strings the handler extracted (`id`, `touserid`, `username`,
      `messagetext`, `value`, `text`). */
  function Dispatch(s: Snapshot, command: string, idStr: string, toUserId: string, username: string,
                    messageText: string, valueStr: string, textStr: string): (Response, Snapshot)
  {
    match RouteOf(command)
    case NoCommand => (PlainText("error"), s)
    case GetAllUsers =>
      (UsersResponse(true, UserStore.Others(s.users, ParseValidNumber(idStr))), s)
    case GetMessages =>
      var (found, ms) := MessageStore.GetMessages(s.messages, ParseValidNumber(idStr), ParseValidNumber(toUserId));
      (MessagesResponse(true, found), s.(messages := ms))
    case AddUser =>
      var (user, us) := UserStore.AddUser(s.users, username);
      (UsersResponse(true, [user]), s.(users := us))
    case SendMessage =>
      var (peer, ms) := MessageStore.Send(s.messages, ParseValidNumber(idStr), ParseValidNumber(toUserId), messageText);
      (SendMessageResponse(true, peer, 0), s.(messages := ms))
    case DeviceGetAll =>
      (DevicesResponse(true, s.devices), s)
    case DeviceSendCommand =>
      var id, value := ParseValidNumber(idStr), ParseValidNumber(valueStr);
      var (message, id', value') := DeviceStore.CommandReply(s.devices, id, value);
      (DeviceResponse(true, id', message, value', textStr),
       s.(devices := DeviceStore.AfterCommand(s.devices, id, value, textStr)))
    case DeviceGetValue =>
      var id := ParseValidNumber(idStr);
      var (message, id', value) := DeviceStore.GetValue(s.devices, id);
      (DeviceResponse(true, id', message, value, ""), s.(devices := DeviceStore.AfterRead(s.devices, id)))
    case DeviceGetText =>
      var id := ParseValidNumber(idStr);
      var (message, id', text) := DeviceStore.GetText(s.devices, id);
      (DeviceResponse(true, id', message, 0, text), s.(devices := DeviceStore.AfterRead(s.devices, id)))
    case DeviceGet =>
      var id := ParseValidNumber(idStr);
      var (message, id', value, text) := DeviceStore.GetBoth(s.devices, id);
      (DeviceResponse(true, id', message, value, text), s.(devices := DeviceStore.AfterRead(s.devices, id)))
    case Unknown =>
      (ErrorResponse(false, UnknownCommandPrefix + command), s)
  }

  /** `getJSONnResult` over a store. */
  method GetJsonResult(store: Store, command: string, idStr: string, toUserId: string, username: string,
                       messageText: string, valueStr: string, textStr: string) returns (r: Response)
    requires store.Valid()
    modifies store
    ensures store.Valid()
    ensures (r, store.State()) == Dispatch(old(store.State()), command, idStr, toUserId, username,
                                           messageText, valueStr, textStr)
  {
    match RouteOf(command)
    case NoCommand =>
      r := PlainText("error");
    case GetAllUsers =>
      var users := store.GetOnlineUser(idStr);
      r := UsersResponse(true, users);
    case GetMessages =>
      var messages := store.GetMessages(idStr, toUserId);
      r := MessagesResponse(true, messages);
    case AddUser =>
      var user := store.AddUser(username);
      r := UsersResponse(true, [user]);
    case SendMessage =>
      var message := store.SendMessage(idStr, toUserId, messageText);
      r := SendMessageResponse(true, message, 0);
    case DeviceGetAll =>
      r := DevicesResponse(true, store.devices);
    case DeviceSendCommand =>
      var message, id, value := store.DeviceSendCommand(idStr, valueStr, textStr);
      r := DeviceResponse(true, id, message, value, textStr);
    case DeviceGetValue =>
      var message, id, value := store.DeviceGetValue(idStr);
      r := DeviceResponse(true, id, message, value, "");
    case DeviceGetText =>
      var message, id, text := store.DeviceGetText(idStr);
      r := DeviceResponse(true, id, message, 0, text);
    case DeviceGet =>
      var message, id, value, text := store.DeviceGet(idStr);
      r := DeviceResponse(true, id, message, value, text);
    case Unknown =>
      r := ErrorResponse(false, UnknownCommandPrefix + command);
  }

  /** Routing is an exact match against the command table: a path takes a named
      route exactly when it is that route's path. */
  lemma {:induction false} RouteOfPath(route: Route, command: string)
    requires route != Unknown
    ensures RouteOf(command) == route <==> command == PathOf(route)
  {
    if command == PathOf(route) {
      match route
      case NoCommand =>
      case GetAllUsers =>
      case GetMessages =>
      case AddUser =>
      case SendMessage =>
      case DeviceGetAll =>
      case DeviceSendCommand =>
      case DeviceGetValue =>
      case DeviceGetText =>
      case DeviceGet =>
    }
  }

  /** An empty command is answered with the bare text "error", any other path outside
      the table with a failure envelope naming it; neither touches the collections.
      Every command in the table answers with success. */
  lemma RoutingSpec(s: Snapshot, command: string, idStr: string, toUserId: string, username: string,
                    messageText: string, valueStr: string, textStr: string)
    ensures var (r, s') := Dispatch(s, command, idStr, toUserId, username, messageText, valueStr, textStr);
      (command == "" ==> r == PlainText("error") && s' == s) &&
      (RouteOf(command) == Unknown ==>
         r == ErrorResponse(false, UnknownCommandPrefix + command) && s' == s) &&
      (RouteOf(command) !in {NoCommand, Unknown} ==> !r.PlainText? && r.success)
  {
  }

  /** Every request keeps the store invariant: user and message identifiers strictly
      increase, user names are unique, device identifiers are distinct. */
  lemma DispatchKeepsValid(s: Snapshot, command: string, idStr: string, toUserId: string, username: string,
                           messageText: string, valueStr: string, textStr: string)
    requires SnapshotValid(s)
    ensures SnapshotValid(Dispatch(s, command, idStr, toUserId, username, messageText, valueStr, textStr).1)
  {
    var id, other := ParseValidNumber(idStr), ParseValidNumber(toUserId);
    match RouteOf(command)
    case GetMessages => MessageStore.GetMessagesKeepsValid(s.messages, id, other);
    case AddUser => UserStore.AddUserSpec(s.users, username);
    case SendMessage => MessageStore.SendSpec(s.messages, id, other, messageText);
    case DeviceSendCommand => DeviceStore.CommandSpec(s.devices, id, ParseValidNumber(valueStr), textStr);
    case DeviceGetValue => DeviceStore.ReadSpec(s.devices, id);
    case DeviceGetText => DeviceStore.ReadSpec(s.devices, id);
    case DeviceGet => DeviceStore.ReadSpec(s.devices, id);
    case _ =>
  }

  /** Users and messages are only ever appended to: every request leaves the earlier
      records in place and unchanged. */
  lemma DispatchOnlyAppends(s: Snapshot, command: string, idStr: string, toUserId: string, username: string,
                            messageText: string, valueStr: string, textStr: string)
    requires SnapshotValid(s)
    ensures var s' := Dispatch(s, command, idStr, toUserId, username, messageText, valueStr, textStr).1;
      |s.users| <= |s'.users| && s'.users[..|s.users|] == s.users &&
      |s.messages| <= |s'.messages| && s'.messages[..|s.messages|] == s.messages
  {
    var s' := Dispatch(s, command, idStr, toUserId, username, messageText, valueStr, textStr).1;
    var id, other := ParseValidNumber(idStr), ParseValidNumber(toUserId);
    match RouteOf(command)
    case GetMessages => MessageStore.GetMessagesKeepsValid(s.messages, id, other);
    case AddUser => UserStore.AddUserSpec(s.users, username);
    case SendMessage => MessageStore.SendSpec(s.messages, id, other, messageText);
    case _ => assert s'.users == s.users && s'.messages == s.messages;
  }

  /** Devices are never removed or renumbered: every request keeps each device at its
      position with its identifier, and the list only grows. */
  lemma DispatchKeepsDevices(s: Snapshot, command: string, idStr: string, toUserId: string, username: string,
                             messageText: string, valueStr: string, textStr: string)
    requires SnapshotValid(s)
    ensures var s' := Dispatch(s, command, idStr, toUserId, username, messageText, valueStr, textStr).1;
      |s.devices| <= |s'.devices| &&
      forall j :: 0 <= j < |s.devices| ==> s'.devices[j].id == s.devices[j].id
  {
    var ds' := Dispatch(s, command, idStr, toUserId, username, messageText, valueStr, textStr).1.devices;
    var id := ParseValidNumber(idStr);
    match RouteOf(command)
    case DeviceSendCommand => DeviceStore.CommandSpec(s.devices, id, ParseValidNumber(valueStr), textStr);
    case DeviceGetValue => ReadKeepsDevices(s.devices, id);
    case DeviceGetText => ReadKeepsDevices(s.devices, id);
    case DeviceGet => ReadKeepsDevices(s.devices, id);
    case _ => assert ds' == s.devices;
  }

  lemma ReadKeepsDevices(ds: seq<Device>, id: int)
    requires DeviceStore.DevicesValid(ds)
    ensures var ds' := DeviceStore.AfterRead(ds, id);
      |ds| <= |ds'| && forall j :: 0 <= j < |ds| ==> ds'[j].id == ds[j].id
  {
    var ds' := DeviceStore.AfterRead(ds, id);
    DeviceStore.ReadSpec(ds, id);
    forall j | 0 <= j < |ds| ensures ds'[j].id == ds[j].id {
      assert ds'[j] == ds'[..|ds|][j];
    }
  }

  /** Two "/addUser" requests with the same name answer with the same user, and the
      second leaves the collections as the first left them. */
  lemma AddUserTwice(s: Snapshot, username: string, a: string, b: string, c: string, d: string, e: string)
    requires SnapshotValid(s)
    ensures var (r1, s1) := Dispatch(s, "/addUser", a, b, username, c, d, e);
            var (r2, s2) := Dispatch(s1, "/addUser", a, b, username, c, d, e);
            r2 == r1 && s2 == s1
  {
    UserStore.AddUserIdempotent(s.users, username);
  }

  /** Reading an unknown device answers "missing" with value 0 and creates it, so
      "/deviceGetAll" lists it afterwards. */
  lemma UnknownDeviceRead(s: Snapshot, n: int)
    requires SnapshotValid(s) && InInt64(n)
    requires forall j :: 0 <= j < |s.devices| ==> s.devices[j].id != n
    ensures var (r, s') := Dispatch(s, "/deviceGetValue", FormatInt(n), "", "", "", "", "");
      r == DeviceResponse(true, n, "missing", 0, "") &&
      Device(n, 0, "") in Dispatch(s', "/deviceGetAll", "", "", "", "", "", "").0.devices
  {
    ParseFormatRoundTrip(n);
    assert RouteOf("/deviceGetValue") == DeviceGetValue by { RouteOfPath(DeviceGetValue, "/deviceGetValue"); }
    assert RouteOf("/deviceGetAll") == DeviceGetAll by { RouteOfPath(DeviceGetAll, "/deviceGetAll"); }
    DeviceStore.MissAsymmetry(s.devices, n, 0, "");
  }

  /** Commanding an unknown device answers "no device" and does not create it. */
  lemma UnknownDeviceCommand(s: Snapshot, n: int, valueStr: string, textStr: string)
    requires SnapshotValid(s) && InInt64(n)
    requires forall j :: 0 <= j < |s.devices| ==> s.devices[j].id != n
    ensures var (r, s') := Dispatch(s, "/deviceSendCommand", FormatInt(n), "", "", "", valueStr, textStr);
      r == DeviceResponse(true, n, "no device", ParseValidNumber(valueStr), textStr) && s' == s
  {
    ParseFormatRoundTrip(n);
    assert RouteOf("/deviceSendCommand") == DeviceSendCommand by { RouteOfPath(DeviceSendCommand, "/deviceSendCommand"); }
    DeviceStore.MissAsymmetry(s.devices, n, ParseValidNumber(valueStr), textStr);
  }
}
