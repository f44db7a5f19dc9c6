/** The device store: getters that insert a zero device on a miss, and a command
    setter that updates in place and never inserts. */
module DeviceStore {
  import opened Items

  /** The index of the first device numbered `id`, if any. */
  function FindDevice(ds: seq<Device>, id: int): (r: Option<nat>)
    ensures r.Some? ==> r.value < |ds| && ds[r.value].id == id &&
                        forall j :: 0 <= j < r.value ==> ds[j].id != id
    ensures r.None? ==> forall j :: 0 <= j < |ds| ==> ds[j].id != id
  {
    if ds == [] then None
    else if ds[0].id == id then Some(0)
    else match FindDevice(ds[1..], id)
      case Some(k) => Some(k + 1)
      case None => None
  }

  /** The device list after one of the three getters: unchanged on a hit, the zero
      device `{id, 0, ""}` appended on a miss. */
  function AfterRead(ds: seq<Device>, id: int): seq<Device> {
    if FindDevice(ds, id).Some? then ds else ds + [Device(id, 0, "")]
  }

  /** `deviceGetValue`: status, echoed identifier and value. */
  function GetValue(ds: seq<Device>, id: int): (string, int, int) {
    match FindDevice(ds, id)
    case Some(i) => ("OK", id, ds[i].value)
    case None => ("missing", id, 0)
  }

  /** `deviceGetText`: status, echoed identifier and text. */
  function GetText(ds: seq<Device>, id: int): (string, int, string) {
    match FindDevice(ds, id)
    case Some(i) => ("OK", id, ds[i].text)
    case None => ("missing", id, "--")
  }

  /** `deviceGet`: status, echoed identifier, value and text. */
  function GetBoth(ds: seq<Device>, id: int): (string, int, int, string) {
    match FindDevice(ds, id)
    case Some(i) => ("OK", id, ds[i].value, ds[i].text)
    case None => ("missing", id, 0, "--")
  }

  /** The device list after `deviceSendCommand`: the matching device gets the new value
      and text; a miss changes nothing. */
  function AfterCommand(ds: seq<Device>, id: int, value: int, text: string): seq<Device> {
    match FindDevice(ds, id)
    case Some(i) => ds[i := ds[i].(value := value, text := text)]
    case None => ds
  }

  /** `deviceSendCommand`: status, echoed identifier and value. */
  function CommandReply(ds: seq<Device>, id: int, value: int): (string, int, int) {
    if FindDevice(ds, id).Some? then ("Device found", id, value) else ("no device", id, value)
  }

  /** The store invariant: device identifiers are pairwise distinct. */
  predicate DevicesValid(ds: seq<Device>) {
    forall i, j :: 0 <= i < j < |ds| ==> ds[i].id != ds[j].id
  }

  lemma SeedDevicesValid()
    ensures DevicesValid(SeedDevices)
  {
  }

  /** A getter leaves a device numbered `id` behind, keeps identifiers distinct and only
      grows the list; on a hit it changes nothing and reports the stored fields, on a
      miss it appends exactly the zero device and reports "missing". */
  lemma ReadSpec(ds: seq<Device>, id: int)
    requires DevicesValid(ds)
    ensures var ds' := AfterRead(ds, id);
      DevicesValid(ds') && ds'[..|ds|] == ds && |ds'| <= |ds| + 1 &&
      FindDevice(ds', id).Some? && ds'[FindDevice(ds', id).value].id == id &&
      (FindDevice(ds, id).Some? ==>
         (var d := ds[FindDevice(ds, id).value];
          ds' == ds && GetBoth(ds, id) == ("OK", id, d.value, d.text) &&
          GetValue(ds, id) == ("OK", id, d.value) && GetText(ds, id) == ("OK", id, d.text))) &&
      (FindDevice(ds, id).None? ==>
         (ds' == ds + [Device(id, 0, "")] &&
          GetValue(ds, id) == ("missing", id, 0) && GetText(ds, id) == ("missing", id, "--") &&
          GetBoth(ds, id) == ("missing", id, 0, "--")))
  {
    if FindDevice(ds, id).None? {
      FindAppended(ds, Device(id, 0, ""));
    }
  }

  lemma {:induction false} FindAppended(ds: seq<Device>, d: Device)
    requires forall j :: 0 <= j < |ds| ==> ds[j].id != d.id
    ensures FindDevice(ds + [d], d.id) == Some(|ds|)
  {
    if ds != [] {
      assert (ds + [d])[1..] == ds[1..] + [d];
      FindAppended(ds[1..], d);
    }
  }

  /** A second read of the same identifier finds the device the first one inserted. */
  lemma ReadTwice(ds: seq<Device>, id: int)
    requires DevicesValid(ds)
    ensures AfterRead(AfterRead(ds, id), id) == AfterRead(ds, id)
    ensures GetValue(AfterRead(ds, id), id).0 == "OK"
  {
    ReadSpec(ds, id);
  }

  /** `deviceSendCommand` never inserts: the list keeps its length and its identifiers;
      on a hit only the matching device changes, to the new value and text, and reads
      see the new fields; on a miss nothing changes. */
  lemma CommandSpec(ds: seq<Device>, id: int, value: int, text: string)
    requires DevicesValid(ds)
    ensures var ds' := AfterCommand(ds, id, value, text);
      DevicesValid(ds') && |ds'| == |ds| &&
      (forall j :: 0 <= j < |ds| ==> ds'[j].id == ds[j].id) &&
      (FindDevice(ds, id).None? ==> ds' == ds && CommandReply(ds, id, value).0 == "no device") &&
      (FindDevice(ds, id).Some? ==>
         (CommandReply(ds, id, value).0 == "Device found" &&
          (forall j :: 0 <= j < |ds| && ds[j].id != id ==> ds'[j] == ds[j]) &&
          GetBoth(ds', id) == ("OK", id, value, text)))
  {
    var ds' := AfterCommand(ds, id, value, text);
    if FindDevice(ds, id).Some? {
      FindSameIds(ds, ds', id);
    }
  }

  lemma {:induction false} FindSameIds(ds: seq<Device>, ds': seq<Device>, id: int)
    requires |ds'| == |ds| && forall j :: 0 <= j < |ds| ==> ds'[j].id == ds[j].id
    ensures FindDevice(ds', id) == FindDevice(ds, id)
  {
    if ds != [] {
      FindSameIds(ds[1..], ds'[1..], id);
    }
  }

  /** The getter/setter asymmetry on an unknown identifier: a read inserts the zero
      device, a command does not. */
  lemma MissAsymmetry(ds: seq<Device>, id: int, value: int, text: string)
    requires DevicesValid(ds) && forall j :: 0 <= j < |ds| ==> ds[j].id != id
    ensures Device(id, 0, "") in AfterRead(ds, id)
    ensures forall d :: d in AfterCommand(ds, id, value, text) ==> d.id != id
  {
    assert FindDevice(ds, id).None?;
  }
}
