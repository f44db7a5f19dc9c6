/** The three record types of the messenger server and its reserved constants. */
module Items {

  datatype Option<T> = None | Some(value: T)

  /** `UserItem`. */
  datatype User = User(id: int, username: string, isOnline: bool)

  /** `MessageItem`: one stored copy of a message. `userId` is the user the copy is
      filed under for retrieval, `toUserId` the user it is delivered to. */
  datatype Message = Message(id: int, text: string, userId: int, toUserId: int, fromMe: bool)

  /** `DeviceItem`. */
  datatype Device = Device(id: int, value: int, text: string)

  /** The seeded administrator, also the counterpart that answers with a greeting. */
  const AdminUserId: int := 1
  /** The caller that only ever receives the last message (a device client). */
  const DeviceClassUserId: int := 3
  const AdminGreeting: string := "Hallo ich bin der Admin Benutzer"
  /** The placeholder returned to the device-class caller when nothing matches. */
  const NoData: Message := Message(0, "NO DATA", 0, 0, false)

  /** Seed of `userItems`. */
  const SeedUsers: seq<User> := [User(1, "Admin", false)]
  /** Seed of `messengerItems`. */
  const SeedMessages: seq<Message> := [Message(1, "Test Message", 1, 1, false)]
  /** Seed of `deviceItems`. */
  const SeedDevices: seq<Device> := [Device(0, 0, "")]
}
