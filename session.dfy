/** The client object: its session tokens, its cached inventory and the
    operations that refresh and query them. Every HTTP exchange is an input
    (the decoded reply, or the failure the transport reported) and every
    operation returns the requests it issued, in order. */
module Session {
  import opened Wrappers
  import opened Types
  import opened Decimal
  import opened Tokens
  import opened Render

  const GatewaysURL: string := BaseURL + "Gateway/GetAllGateways"
  const DevicesURL: string := BaseURL + "api/MyQDevices/GetAllDevices"

  /** The outcome of the login POST: the POST failed, the page could not be
      parsed as HTML, or the parsed page. */
  datatype LoginReply = PostFailed(cause: string) | Unparsable(cause: string) | Page(doc: Node)

  /** The location map built from the decoded place list: every record under
      its gateway id, a later record replacing an earlier one with the same id. */
  function PlacesMap(records: seq<Place>): map<int, Place>
  {
    if records == [] then map[]
    else PlacesMap(records[..|records| - 1])[records[|records| - 1].Gatewayid := records[|records| - 1]]
  }

  /** The keys of the location map are exactly the gateway ids of the records. */
  lemma {:induction false} PlacesMapKeys(records: seq<Place>, id: int)
    ensures id in PlacesMap(records) <==> exists k :: 0 <= k < |records| && records[k].Gatewayid == id
  {
    if records != [] {
      var init := records[..|records| - 1];
      PlacesMapKeys(init, id);
      if exists k :: 0 <= k < |init| && init[k].Gatewayid == id {
        var k :| 0 <= k < |init| && init[k].Gatewayid == id;
        assert records[k] == init[k];
      }
      if exists k :: 0 <= k < |records| && records[k].Gatewayid == id {
        var k :| 0 <= k < |records| && records[k].Gatewayid == id;
        if k < |init| {
          assert init[k] == records[k];
        }
      }
    }
  }

  /** Each id maps to its last record: the record at k is stored under its id
      when no later record has the same id. */
  lemma {:induction false} PlacesMapLastWins(records: seq<Place>, k: nat)
    requires k < |records|
    requires forall j :: k < j < |records| ==> records[j].Gatewayid != records[k].Gatewayid
    ensures records[k].Gatewayid in PlacesMap(records)
    ensures PlacesMap(records)[records[k].Gatewayid] == records[k]
  {
    if k < |records| - 1 {
      var init := records[..|records| - 1];
      assert init[k] == records[k];
      PlacesMapLastWins(init, k);
    }
  }

  /** The location name a device is annotated with: the Name of the place with
      its gateway id, or the zero string when there is none. */
  function LocationName(locations: map<int, Place>, gatewayid: int): string {
    if gatewayid in locations then locations[gatewayid].Name else ""
  }

  /** Resolved against a freshly built location map, a gateway id yields the
      name of the last record with that id, and "" when no record has it. */
  lemma ResolvedLocation(records: seq<Place>, gatewayid: int)
    ensures (forall k :: 0 <= k < |records| ==> records[k].Gatewayid != gatewayid) ==>
              LocationName(PlacesMap(records), gatewayid) == ""
    ensures forall k :: 0 <= k < |records| && records[k].Gatewayid == gatewayid &&
                        (forall j :: k < j < |records| ==> records[j].Gatewayid != gatewayid) ==>
                          LocationName(PlacesMap(records), gatewayid) == records[k].Name
  {
    PlacesMapKeys(records, gatewayid);
    forall k | 0 <= k < |records| && records[k].Gatewayid == gatewayid &&
               (forall j :: k < j < |records| ==> records[j].Gatewayid != gatewayid)
      ensures LocationName(PlacesMap(records), gatewayid) == records[k].Name
    {
      PlacesMapLastWins(records, k);
    }
  }

  function GatewaysRequest(nowMillis: int): Request {
    Get(GatewaysURL, [("_", Itoa(nowMillis))])
  }

  function DevicesRequest(applicationId: string, securityToken: string): Request {
    Get(DevicesURL, [("applicationId", applicationId), ("securityToken", securityToken),
                     ("culture", Culture), ("brandName", BrandName)])
  }

  function LoginRequest(username: string, password: string): Request {
    Post(BaseURL, [("Email", username), ("Password", password)])
  }

  /** The details line for one device: machine-readable or human-readable. */
  function DetailLine(machineReadable: bool, d: Device, date: string): string {
    if machineReadable then MachineLine(d) else HumanLine(d, date)
  }

  /** The details lines of a list of devices, one per device, in order. */
  function DetailLines(machineReadable: bool, ds: seq<Device>, dateOf: Device -> string): (r: seq<string>)
    ensures |r| == |ds|
  {
    if ds == [] then []
    else DetailLines(machineReadable, ds[..|ds| - 1], dateOf) + [DetailLine(machineReadable, ds[|ds| - 1], dateOf(ds[|ds| - 1]))]
  }

  lemma {:induction false} DetailLinesAt(machineReadable: bool, ds: seq<Device>, dateOf: Device -> string, k: nat)
    requires k < |ds|
    ensures DetailLines(machineReadable, ds, dateOf)[k] == DetailLine(machineReadable, ds[k], dateOf(ds[k]))
  {
    if k < |ds| - 1 {
      DetailLinesAt(machineReadable, ds[..|ds| - 1], dateOf, k);
    }
  }

  /** The devices selected by state name, in snapshot order. */
  function InState(devices: seq<Device>, state: string): (r: seq<Device>)
    ensures |r| <= |devices|
    ensures forall k :: 0 <= k < |r| ==> r[k].Statename == state
  {
    if devices == [] then []
    else
      var init := InState(devices[..|devices| - 1], state);
      var last := devices[|devices| - 1];
      if last.Statename == state then init + [last] else init
  }

  /** The selection holds each device with the state name as often as the
      snapshot does, and no other device. */
  lemma {:induction false} InStateCount(devices: seq<Device>, state: string)
    ensures forall d :: multiset(InState(devices, state))[d] == if d.Statename == state then multiset(devices)[d] else 0
    ensures forall d :: d in InState(devices, state) <==> d in devices && d.Statename == state
  {
    if devices != [] {
      var init, last := devices[..|devices| - 1], devices[|devices| - 1];
      InStateCount(init, state);
      assert devices == init + [last];
      assert multiset(devices) == multiset(init) + multiset{last};
    }
  }

  /** Position i of the snapshot holds a device with the given state name. */
  predicate Matching(devices: seq<Device>, state: string, i: int) {
    0 <= i < |devices| && devices[i].Statename == state
  }

  lemma InStateSnoc(devices: seq<Device>, state: string)
    requires devices != []
    ensures InState(devices, state) ==
              InState(devices[..|devices| - 1], state) +
              (if devices[|devices| - 1].Statename == state then [devices[|devices| - 1]] else [])
  {
  }

  /** The selection keeps snapshot order: its k-th device sits at idx[k] in the
      snapshot, the positions strictly increase, and every matching position
      is one of them. */
  lemma {:induction false} InStateOrder(devices: seq<Device>, state: string) returns (idx: seq<int>)
    ensures |idx| == |InState(devices, state)|
    ensures forall k :: 0 <= k < |idx| ==> 0 <= idx[k] < |devices| && InState(devices, state)[k] == devices[idx[k]]
    ensures forall k, j :: 0 <= k < j < |idx| ==> idx[k] < idx[j]
    ensures forall i :: Matching(devices, state, i) ==> i in idx
  {
    if devices == [] {
      return [];
    }
    var n := |devices| - 1;
    var init := devices[..n];
    var prev := InStateOrder(init, state);
    InStateSnoc(devices, state);
    var sel, selInit := InState(devices, state), InState(init, state);
    idx := prev + if devices[n].Statename == state then [n] else [];
    forall k | 0 <= k < |prev|
      ensures idx[k] == prev[k] && sel[k] == selInit[k] && 0 <= prev[k] < n && devices[prev[k]] == init[prev[k]]
    {
    }
    forall i | Matching(devices, state, i)
      ensures i in idx
    {
      if i < n {
        assert init[i] == devices[i];
        assert Matching(init, state, i);
      } else {
        assert idx[|idx| - 1] == n;
      }
    }
  }

  class MyQ {
    var securityToken: string
    var applicationId: string
    var devices: seq<Device>
    var locations: map<int, Place>
    var inProgress: bool
    var debug: bool
    var machineReadable: bool

    /** The zero-valued client a caller declares before calling New. */
    constructor ()
      ensures securityToken == "" && applicationId == ""
      ensures devices == [] && locations == map[]
      ensures !inProgress && !debug && !machineReadable
    {
      securityToken, applicationId := "", "";
      devices, locations := [], map[];
      inProgress, debug, machineReadable := false, false, false;
    }

    /** getAllGateways: one GET with the cache-busting time; on success the
        location map is rebuilt from the decoded records, on failure it is kept. */
    method GetAllGateways(nowMillis: int, reply: Reply<seq<Place>>)
      returns (err: Option<Error>, issued: seq<Request>)
      modifies this`locations
      ensures issued == [GatewaysRequest(nowMillis)]
      ensures reply.Failed? ==> err == Some(Transport(reply.cause)) && locations == old(locations)
      ensures reply.Received? ==> err == None && locations == PlacesMap(reply.value)
    {
      issued := [GatewaysRequest(nowMillis)];
      if reply.Failed? {
        return Some(Transport(reply.cause)), issued;
      }
      var places := reply.value;
      locations := map[];
      for i := 0 to |places|
        invariant locations == PlacesMap(places[..i])
      {
        assert places[..i + 1][..i] == places[..i];
        locations := locations[places[i].Gatewayid := places[i]];
      }
      assert places[..|places|] == places;
      err := None;
    }

    /** getAllDevices: refreshes the locations first and stops there if that
        fails; otherwise fetches the device list and, only if that succeeds,
        annotates every device with its location name and replaces the device
        snapshot. A failed device fetch keeps the old devices but the new
        locations. */
    method GetAllDevices(nowMillis: int, gatewayReply: Reply<seq<Place>>, deviceReply: Reply<seq<Device>>)
      returns (err: Option<Error>, issued: seq<Request>)
      modifies this`locations, this`devices
      ensures gatewayReply.Failed? ==>
                issued == [GatewaysRequest(nowMillis)] && err == Some(Transport(gatewayReply.cause)) &&
                locations == old(locations) && devices == old(devices)
      ensures gatewayReply.Received? ==>
                issued == [GatewaysRequest(nowMillis), DevicesRequest(applicationId, securityToken)] &&
                locations == PlacesMap(gatewayReply.value)
      ensures gatewayReply.Received? && deviceReply.Failed? ==>
                err == Some(Transport(deviceReply.cause)) && devices == old(devices)
      ensures gatewayReply.Received? && deviceReply.Received? ==>
                err == None && |devices| == |deviceReply.value| &&
                forall k :: 0 <= k < |devices| ==>
                  devices[k] == deviceReply.value[k].(location := LocationName(locations, deviceReply.value[k].Gatewayid))
    {
      err, issued := GetAllGateways(nowMillis, gatewayReply);
      if err.Some? {
        return;
      }
      issued := issued + [DevicesRequest(applicationId, securityToken)];
      if deviceReply.Failed? {
        return Some(Transport(deviceReply.cause)), issued;
      }
      var decoded := deviceReply.value;
      var d := new Device[|decoded|](k requires 0 <= k < |decoded| => decoded[k]);
      for i := 0 to d.Length
        modifies d
        invariant forall k :: 0 <= k < i ==> d[k] == decoded[k].(location := LocationName(locations, decoded[k].Gatewayid))
        invariant forall k :: i <= k < d.Length ==> d[k] == decoded[k]
      {
        d[i] := d[i].(location := LocationName(locations, d[i].Gatewayid));
      }
      devices := d[..];
    }

    /** FindDoorByName: the first device in snapshot order whose name is exactly
        the one asked for; without one, an error together with the last device
        scanned (the zero device when there are none). */
    method FindDoorByName(name: string) returns (d: Device, err: Option<Error>)
      ensures err == None <==> exists k :: 0 <= k < |devices| && devices[k].Name == name
      ensures err == None ==>
                exists k :: 0 <= k < |devices| && devices[k] == d && d.Name == name &&
                            forall j :: 0 <= j < k ==> devices[j].Name != name
      ensures err != None ==> Message(err.value) == "Device named '" + name + "' not found"
      ensures err != None ==>
                err == Some(DeviceNotFound(name)) &&
                d == if devices == [] then ZeroDevice else devices[|devices| - 1]
    {
      d := ZeroDevice;
      var i := 0;
      while i < |devices|
        invariant 0 <= i <= |devices|
        invariant forall j :: 0 <= j < i ==> devices[j].Name != name
        invariant d == if i == 0 then ZeroDevice else devices[i - 1]
      {
        d := devices[i];
        if d.Name == name {
          return d, None;
        }
        i := i + 1;
      }
      err := Some(DeviceNotFound(name));
    }

    /** ShowByState: the devices whose state name equals the argument, in
        snapshot order, and the details line printed for each. The local-time
        rendering of a device's timestamp is supplied as dateOf. */
    method ShowByState(s: string, dateOf: Device -> string) returns (shown: seq<Device>, lines: seq<string>)
      ensures shown == InState(devices, s)
      ensures lines == DetailLines(machineReadable, shown, dateOf)
    {
      shown, lines := [], [];
      for i := 0 to |devices|
        invariant shown == InState(devices[..i], s)
        invariant lines == DetailLines(machineReadable, shown, dateOf)
      {
        assert devices[..i + 1][..i] == devices[..i];
        if devices[i].Statename == s {
          var line := DoorDetails(devices[i], dateOf(devices[i]));
          assert (shown + [devices[i]])[..|shown|] == shown;
          shown, lines := shown + [devices[i]], lines + [line];
        }
      }
      assert devices[..|devices|] == devices;
    }

    /** DoorDetails: the machine-readable line when the client was set up for
        machine-readable output, the human-readable line otherwise. */
    method DoorDetails(d: Device, date: string) returns (s: string)
      ensures machineReadable ==> s == MachineLine(d)
      ensures !machineReadable ==> s == HumanLine(d, date)
    {
      if machineReadable {
        s := MachineString(d);
      } else {
        s := String(d, date);
      }
    }

    /** login, from the POST on: a failed POST or an unparsable page returns
        its error with the tokens untouched; otherwise the tokens are read from
        the page, and a missing security token, then a missing application id,
        is an error. */
    method Login(username: string, password: string, reply: LoginReply)
      returns (err: Option<Error>, issued: seq<Request>)
      requires reply.Page? ==> TreeReadable(reply.doc)
      modifies this`securityToken, this`applicationId
      ensures issued == [LoginRequest(username, password)]
      ensures reply.PostFailed? ==>
                err == Some(LoginPostFailed(reply.cause)) &&
                securityToken == old(securityToken) && applicationId == old(applicationId)
      ensures reply.Unparsable? ==>
                err == Some(HtmlParse(reply.cause)) &&
                securityToken == old(securityToken) && applicationId == old(applicationId)
      ensures reply.Page? ==>
                securityToken == VisitAll(Preorder(reply.doc), "securityToken", old(securityToken)) &&
                applicationId == VisitAll(Preorder(reply.doc), "ApplicationId", old(applicationId))
      ensures reply.Page? && securityToken == "" ==> err == Some(MissingSecurityToken)
      ensures reply.Page? && securityToken != "" && applicationId == "" ==> err == Some(MissingApplicationId)
      ensures reply.Page? && securityToken != "" && applicationId != "" ==> err == None
    {
      issued := [LoginRequest(username, password)];
      match reply
      case PostFailed(cause) =>
        return Some(LoginPostFailed(cause)), issued;
      case Unparsable(cause) =>
        return Some(HtmlParse(cause)), issued;
      case Page(doc) =>
        var findErr;
        securityToken, applicationId, findErr := FindTokens(doc, securityToken, applicationId);
        if securityToken == "" {
          return Some(MissingSecurityToken), issued;
        }
        if applicationId == "" {
          return Some(MissingApplicationId), issued;
        }
        err := findErr;
    }

    /** New: records the output options, logs in and, if that worked, loads the
        inventory. Whatever login left in the tokens stays there, and a failed
        fetch leaves the inventory as getAllDevices leaves it. */
    method New(username: string, password: string, debugFlag: bool, machineReadableFlag: bool,
               loginReply: LoginReply, nowMillis: int,
               gatewayReply: Reply<seq<Place>>, deviceReply: Reply<seq<Device>>)
      returns (err: Option<Error>, issued: seq<Request>)
      requires loginReply.Page? ==> TreeReadable(loginReply.doc)
      modifies this`debug, this`machineReadable, this`securityToken, this`applicationId
      modifies this`locations, this`devices
      ensures debug == debugFlag && machineReadable == machineReadableFlag
      ensures |issued| >= 1 && issued[0] == LoginRequest(username, password)
      // login
      ensures !loginReply.Page? ==> securityToken == old(securityToken) && applicationId == old(applicationId)
      ensures loginReply.Page? ==>
                securityToken == VisitAll(Preorder(loginReply.doc), "securityToken", old(securityToken)) &&
                applicationId == VisitAll(Preorder(loginReply.doc), "ApplicationId", old(applicationId))
      ensures loginReply.PostFailed? ==> err == Some(LoginPostFailed(loginReply.cause))
      ensures loginReply.Unparsable? ==> err == Some(HtmlParse(loginReply.cause))
      ensures loginReply.Page? && securityToken == "" ==> err == Some(MissingSecurityToken)
      ensures loginReply.Page? && securityToken != "" && applicationId == "" ==> err == Some(MissingApplicationId)
      ensures loginReply.Page? && securityToken != "" && applicationId != "" <==> |issued| > 1
      ensures |issued| == 1 ==> err.Some? && devices == old(devices) && locations == old(locations)
      // inventory
      ensures !(loginReply.Page? && securityToken != "" && applicationId != "") ==>
                issued == [LoginRequest(username, password)]
      ensures loginReply.Page? && securityToken != "" && applicationId != "" ==>
                issued == [LoginRequest(username, password), GatewaysRequest(nowMillis)] +
                          (if gatewayReply.Received? then [DevicesRequest(applicationId, securityToken)] else [])
      ensures |issued| > 1 && gatewayReply.Failed? ==>
                err == Some(Transport(gatewayReply.cause)) && locations == old(locations) && devices == old(devices)
      ensures |issued| > 1 && gatewayReply.Received? ==> locations == PlacesMap(gatewayReply.value)
      ensures |issued| > 1 && gatewayReply.Received? && deviceReply.Failed? ==>
                err == Some(Transport(deviceReply.cause)) && devices == old(devices)
      ensures err == None <==> |issued| > 1 && gatewayReply.Received? && deviceReply.Received?
      ensures err == None ==>
                locations == PlacesMap(gatewayReply.value) && |devices| == |deviceReply.value| &&
                forall k :: 0 <= k < |devices| ==>
                  devices[k] == deviceReply.value[k].(location := LocationName(locations, deviceReply.value[k].Gatewayid))
    {
      debug := debugFlag;
      machineReadable := machineReadableFlag;
      err, issued := Login(username, password, loginReply);
      if err.Some? {
        return;
      }
      var more;
      err, more := GetAllDevices(nowMillis, gatewayReply, deviceReply);
      issued := issued + more;
    }
  }
}
