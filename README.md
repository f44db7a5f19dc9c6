# Mini messenger server: store and command router

This project models the in-memory core of a small messenger and device-control
server written in Go (`main.go`). The server keeps three collections:

- users, seeded with the administrator (ID 1);
- messages, seeded with one test message;
- devices, seeded with device 0.

It answers path-style commands that read or change these collections:

- `/getAllUsers`, `/addUser`
- `/getMessages`, `/sendMessage`
- `/deviceGetAll`, `/deviceSendCommand`, `/deviceGetValue`, `/deviceGetText`, `/deviceGet`

Every numeric query parameter goes through `parseValidNumber`. It maps anything that is
not an optionally signed base-10 int64 to 0.

Layout, one module per component:

- `numbers.dfy` (`Numbers`): `parseValidNumber` as a pure function, with the decimal
  syntax and value it accepts.
- `items.dfy` (`Items`): the `UserItem`, `MessageItem` and `DeviceItem` records, the
  reserved IDs (`AdminUserId = 1`, `DeviceClassUserId = 3`), the greeting text, the
  `NO DATA` placeholder and the seed data.
- `ids.dfy` (`Ids`): the identifier allocator. The next ID is max(0, stored IDs) + 1.
- `users.dfy`, `messages.dfy`, `devices.dfy` (`UserStore`, `MessageStore`,
  `DeviceStore`): each operation as a specification function on the collection's value,
  plus lemmas about it (invariants kept, idempotence, round trips, special cases).
- `store.dfy` (`Server`): the class `Store`. Its fields `users`, `messages` and
  `devices` stand for the three package-level slices. Its methods are the Go functions,
  written as index loops the way the source writes them. Each method is proved equal
  to its specification function.
- `dispatcher.dfy` (`Dispatcher`): `getJSONnResult`. A `Response` datatype stands for
  the JSON envelopes. `Dispatch` is the specification of one request, and
  `GetJsonResult` is proved equal to it.

The three device operations share one search loop, `Store.LocateDevice`. The source
repeats that loop in each of them.

## Model

| member | source | states |
|---|---|---|
| Numbers.ParseValidNumber | main.go:388-401 | the result is always within the int64 range; an optionally signed decimal numeral within that range yields its value, and every other input (the empty string included) yields 0 |
| Numbers.ParseFormatRoundTrip | main.go:388-401 | every int64 written in decimal parses back to itself |
| Numbers.ParseIgnoresLeadingZero | main.go:394 | a leading zero is accepted and does not change the parsed value |
| Ids.MaxId | main.go:483-493 | the allocator's maximum is at least 0, bounds every stored ID, and is 0 or one of the IDs |
| Ids.AllocateKeepsIncreasing | main.go:483-493 | appending max + 1 keeps IDs strictly increasing and positive |
| Ids.MaxIdAppendAbove | main.go:510-520 | after appending an ID above the maximum, that ID is the new maximum |
| Ids.MaxIdOfIncreasing | main.go:483-493 | for strictly increasing IDs the maximum is the last one |
| UserStore.FindByName | main.go:470-474 | the lookup finds the first user with the name, or reports that no user has it |
| UserStore.OthersMembers | main.go:404-416 | a user is listed exactly when it is stored and its ID differs from the caller's |
| UserStore.OthersOfUnknown | main.go:404-416 | a caller ID that no user has (such as 0 for a bad parameter) lists every user |
| UserStore.AddUserSpec | main.go:467-480 | an existing name returns its first user and changes nothing; a new name appends one offline user with ID max + 1, greater than every earlier ID; IDs stay increasing and names unique |
| UserStore.AddUserIdempotent | main.go:470-474 | adding the same name twice returns the same user, and the second call adds nothing |
| UserStore.FirstAddedUserIsTwo | main.go:93-95 | the first user added to the seeded store gets ID 2 |
| UserStore.SeedUsersValid | main.go:93-95 | the seeded user list satisfies the user invariant |
| MessageStore.TwoStageIsConversation | main.go:427-440 | the two-stage filter (delivered to the caller, then filed under the counterpart) equals the one-pass conversation filter |
| MessageStore.ConversationMembers | main.go:427-440 | a message is in the result exactly when it is stored, delivered to the caller and filed under the counterpart |
| MessageStore.SendSpec | main.go:496-508 | a send appends exactly two records: the self copy with ID m+1 and then the peer copy with ID m+2, with owner and recipient swapped and `fromMe` inverted; earlier records are untouched and the peer copy is returned |
| MessageStore.SendThenGet | main.go:496-508 | after a send from a to b, b's query of a ends with the peer copy, which carries the text and `fromMe = false`, and adds nothing to the store |
| MessageStore.AdminNeverSilent | main.go:443-449 | a query of the administrator never returns an empty list; it sends exactly one greeting when nothing matched, and changes nothing otherwise |
| MessageStore.AdminGreetsOnce | main.go:443-449 | repeating the administrator query sends no second greeting |
| MessageStore.OrdinaryQuery | main.go:427-463 | apart from the two special IDs, the query returns the conversation and leaves the store unchanged |
| MessageStore.DeviceClassSingle | main.go:455-461 | caller 3 always gets exactly one message: the `NO DATA` placeholder when nothing matches, else the last match |
| MessageStore.GetMessagesKeepsValid | main.go:419-464 | a query keeps message IDs increasing and only appends |
| MessageStore.SeedMessagesValid | main.go:97-99 | the seeded message list satisfies the message invariant |
| DeviceStore.FindDevice | main.go:329-335 | the lookup finds the first device with the ID, or reports that none has it |
| DeviceStore.ReadSpec | main.go:340-386 | a getter hit returns "OK" with the stored fields and changes nothing; a miss appends exactly `{id, 0, ""}` and returns "missing" with 0 and/or "--"; IDs stay distinct and the list only grows |
| DeviceStore.ReadTwice | main.go:340-354 | a second read of the same ID finds the device the first read inserted |
| DeviceStore.CommandSpec | main.go:324-338 | a command hit overwrites value and text of the matching device only and later reads see them; a miss changes nothing; the list never grows and keeps its IDs |
| DeviceStore.MissAsymmetry | main.go:324-354 | on an unknown ID a read inserts the zero device and a command does not |
| DeviceStore.SeedDevicesValid | main.go:101-103 | the seeded device list satisfies the device invariant |
| Server.SeedValid | main.go:93-103 | the seeded collections satisfy all three invariants |
| Server.Store.constructor | main.go:93-103 | a new store holds exactly the seed data |
| Server.Store.GetOnlineUser | main.go:404-416 | returns the users whose ID differs from the parsed caller ID, in store order, and nothing else |
| Server.Store.CreateUserID | main.go:483-493 | returns max(0, user IDs) + 1, which is greater than every stored user ID |
| Server.Store.AddUser | main.go:467-480 | the returned user and the new user list are those of the lookup-or-create specification; the invariant is kept and the other collections are unchanged |
| Server.Store.CreateMessageID | main.go:510-520 | returns max(0, message IDs) + 1, which is greater than every stored message ID |
| Server.Store.SendMessage | main.go:496-508 | appends the self copy then the peer copy and returns the peer copy, as the send specification says; the invariant is kept |
| Server.Store.FilterMessages | main.go:421-440 | the two filter loops return the conversation: exactly the stored messages delivered to the caller and filed under the counterpart, in store order |
| Server.Store.GetMessages | main.go:419-464 | the result and the new message list are those of the query specification, including the greeting-and-retry recursion (which terminates) and the caller-3 case |
| Server.Store.LocateDevice | main.go:329-335 | returns the index of the first device with the ID, or reports that no device has it |
| Server.Store.DeviceSendCommand | main.go:324-338 | the reply is "Device found" or "no device" with the parsed ID and value; a hit updates that device in place and a miss changes nothing |
| Server.Store.DeviceGetValue | main.go:340-354 | the reply and device list are those of the read specification: "OK" and the value on a hit, "missing" and 0 plus one inserted device on a miss |
| Server.Store.DeviceGetText | main.go:356-370 | "OK" and the text on a hit; "missing" and "--" plus one inserted device on a miss |
| Server.Store.DeviceGet | main.go:372-386 | "OK" with value and text on a hit; "missing", 0 and "--" plus one inserted device on a miss |
| Dispatcher.RouteOfPath | main.go:241-306 | a path takes a command's route exactly when it equals that command's path |
| Dispatcher.RoutingSpec | main.go:232-313 | an empty command yields the bare text "error"; an unknown path yields a failure response "no case for this command: " + path; neither changes the store; every listed command answers with success |
| Dispatcher.GetJsonResult | main.go:230-321 | the response and the new store are those of the dispatch specification, and the store invariant is kept |
| Dispatcher.DispatchKeepsValid | main.go:230-321 | every request keeps user and message IDs increasing, user names unique and device IDs distinct |
| Dispatcher.DispatchOnlyAppends | main.go:230-321 | users and messages are only appended to; earlier records stay unchanged |
| Dispatcher.DispatchKeepsDevices | main.go:230-321 | devices are never removed or renumbered, and the device list only grows |
| Dispatcher.AddUserTwice | main.go:257-263 | two `/addUser` requests with the same name give the same response, and the second changes nothing |
| Dispatcher.UnknownDeviceRead | main.go:285-291 | `/deviceGetValue` on an unknown ID answers "missing" with value 0, and `/deviceGetAll` then lists `{id, 0, ""}` |
| Dispatcher.UnknownDeviceCommand | main.go:278-284 | `/deviceSendCommand` on an unknown ID answers "no device" and leaves the store unchanged |

## Left out

- `getHostAdress` (main.go:115-168) is left out because it is operating-system I/O: it enumerates the network interfaces and prints them.
- `main`, `startServer` and `webserviceHandler` (main.go:105-212) are left out because they are HTTP transport. This covers the listening socket, query-string extraction, the CORS headers and the `/` and `/favicon.ico` short-circuits. The dispatcher receives the already-extracted parameter strings.
- `getWebsite` (main.go:216-223) is left out because it is a file read.
- `json.Marshal` is left out because it is a foreign serialiser; the `Response` datatype stands in for the JSON bytes. The `"err"` fallback (main.go:316-319) is left out as well, since marshalling these fixed record types cannot fail.
- All `fmt.Println` logging is left out.
- Concurrency is not modelled. `net/http` runs handlers in parallel over unsynchronised globals, so two requests can race in the scan-then-append ID allocation. The model is one sequential store.
- Integer width: IDs, values and the `maxID + 1` of the allocators are mathematical integers, so int64 overflow of `maxID + 1` is not modelled. `parseValidNumber` does enforce the int64 range.
- Strings are sequences of characters, while Go strings are byte sequences. A non-ASCII character is rejected as a digit either way, so the parser's result is unaffected.
- The `Response` datatype flattens Go's zero-valued fields. `/sendMessage` carries `value` 0, `/deviceGetValue` carries `text` "", and `/deviceGetText` carries `value` 0, as Go's zero values have them.
