# MyQ client core in Dafny

This project models the in-memory core of the MyQ garage-door client (`src/myq/myq.go`).
The client logs in to the LiftMaster MyQ web service and keeps two tokens. It also keeps a
snapshot of the account's gateways (locations) and doors (devices). It looks doors up by
name, sends guarded open/close commands, and renders a door as a human-readable or a
comma-separated machine-readable line.

Every HTTP exchange is an input to the model. An input is either the failure the transport
reported (`Wrappers.Reply.Failed`) or the value already decoded from JSON or HTML
(`Received`, `LoginReply.Page`). Every operation returns the requests it issued, in order.
That makes "no request is sent" and "the device list is not fetched" provable.

Modules:

- `Types`: the source's records. `Device` has every JSON field plus the client's own
  `location`. `Place` is a gateway record. There are also the `Request` the client sends,
  the `Error` it returns (with the exact message texts) and `Step`, which is a command's
  requests plus its error.
- `Decimal`: `strconv.Itoa`/`%d` rendering, with a parser that serves as its inverse.
- `Text`: joining fields with a comma and splitting them again.
- `Tokens`: the parsed login page as a node tree, and `findTokens`.
- `Render`: `MachineString`, `String` and `place.string`.
- `Doors`: `GetState`, `setDoorState`, `Open` and `Close`. Through their `*MyQ` receiver
  these Go methods read only the HTTP client (for the POST) and the debug flag (for
  `debugf`), and the model leaves both out. Here they are functions of the device and of
  the POST's outcome.
- `Session`: class `MyQ`, which holds the fields `securityToken`, `applicationId`,
  `devices`, `locations`, `inProgress`, `debug` and `machineReadable`. Its methods are
  `getAllGateways`, `getAllDevices`, `login`, `New`, `FindDoorByName`, `ShowByState` and
  `DoorDetails`. The module also has the specification functions these are proved against.
- `Scenario`: a client that refreshes two locations and one closed door, finds the door by
  name and opens it.

The model follows the code in these places, where a reader of the service's documentation
might expect otherwise:

- An empty `StateName` is **not** replaced by `"Unknown"` (myq.go:276-278 only sets `location`).
- `setDoorState` passes the reply struct by value to `doPost` (myq.go:298). The decoded
  `errormessage` never reaches the check at myq.go:299, so a server-side error message is
  never returned. `Doors.SetDoorState` returns only the POST's own error.
- `login` does read `securityToken` and `ApplicationId` from the login page. It fails when
  either is missing, checking the security token first. A failed POST is reported as
  `"Post() failed: <cause>\n"`, not as a generic login failure.
- The device-list request carries `applicationId` and `securityToken` as well as `culture`
  and `brandName`.
- When no device has the name, `FindDoorByName` returns the error together with the last
  device scanned, or the zero `Device` when there are none.
- Door states stay free-text strings. Only `"Open"` and `"Closed"` take part in the guards.

## Model

| member | source | states |
|---|---|---|
| `Decimal.ItoaRoundTrip` | src/myq/myq.go:294-296 | the decimal text `strconv.Itoa` gives for any integer (device id, desired state, timestamp) reads back as that integer |
| `Decimal.ItoaUnique` | src/myq/myq.go:294-296 | `strconv.Itoa`'s text is canonical (no leading zero except in `0`, no `-0`), and it is the only canonical decimal that reads back as the integer |
| `Text.SplitJoin` | src/myq/myq.go:213-216 | splitting comma-joined fields on commas gives back exactly those fields when none holds a comma |
| `Tokens.FindTokens` | src/myq/myq.go:308-328 | the recursive child-by-child walk leaves each token slot equal to a left-to-right visit of the pre-order node sequence. A slot keeps its value unless a hidden input names it. The error result is always nil |
| `Tokens.VisitAllIsLastMatch` | src/myq/myq.go:309-325 | after the walk a slot holds the third attribute of the last matching hidden input in pre-order, or its old value when nothing matches |
| `Render.MachineString` | src/myq/myq.go:210-236 | the line is the seven base fields (name, location, id, state name, epoch seconds, error status, error message) comma-joined, then `,<flag>` for each set flag in the order Monitor, LowBat, SensorErr, OpenErr, CloseErr, Disabled |
| `Render.MachineLineRoundTrip` | src/myq/myq.go:213-235 | when the text fields hold no comma, splitting the line on commas gives the seven base fields and then exactly the names of the set flags, in the fixed order. The flags read back from those tokens equal the device's flags |
| `Render.SetFlagNamesExact` | src/myq/myq.go:217-234 | a flag token is present exactly when its flag is set |
| `Render.String` | src/myq/myq.go:178-208 | the line is the header, then the error clause if `Error` is set, then the text of each set flag in the fixed order. The texts keep the source's spacing (`,Monitor Only`, `, LowBat`, …) |
| `Render.HumanLineShape` | src/myq/myq.go:181-207 | the human line is the header followed by the optional error clause and the set flags' texts. It equals the bare header exactly when there is no error and no flag |
| `Render.PlaceString` | src/myq/myq.go:368-370 | the place line starts with the name, then ` (ID `, and ends with `)` |
| `Render.PlaceStringId` | src/myq/myq.go:368-370 | the gateway id reads back from between ` (ID ` and the closing parenthesis |
| `Doors.SetDoorState` | src/myq/myq.go:284-305 | a desired state other than 0 or 1 is rejected with no request. Otherwise exactly one POST goes to `Device/TriggerStateChange`. It has exactly three parameters: `myQDeviceId` set to `strconv.Itoa` of the device id (which reads back as the id), `attributename=desireddoorstate`, and `attributevalue` set to exactly `1` for open or `0` for close. The result is only the POST's own error |
| `Doors.Open` | src/myq/myq.go:433-447 | with the state read through `GetState` (the decoded state name), a request is issued iff it is `"Closed"`, and then it is `setDoorState(d, 1)`. `"Open"` gives AlreadyOpen and any other state gives CannotOpen(state), both without a request |
| `Doors.Close` | src/myq/myq.go:449-459 | with the state read through `GetState`, a request is issued iff it is `"Open"`, and then it is `setDoorState(d, 0)`. `"Closed"` gives AlreadyClosed and any other state gives CannotClose(state), both without a request |
| `Doors.OpenRefusalMessage` | src/myq/myq.go:439-444 | every Open refusal reads `Can't open, door is <x>`, where x is `already open` for an open door and the state name otherwise |
| `Doors.CloseRefusalMessage` | src/myq/myq.go:451-456 | a Close refusal reads `Door already closed` for a closed door and `Can't close, door is <state>` for any other state but `"Open"` |
| `Types.MessagesTellFailuresApart` | src/myq/myq.go:290-452 | six texts are pairwise distinct as listed: the POST-failure text (for every cause) differs from both missing-token texts (myq.go:347, 359, 362), the two missing-token texts differ, and the invalid-state, already-open and already-closed texts differ (myq.go:290, 440, 452). The HTML-parse failure reports the parser's raw cause, which is not covered |
| `Doors.CommandsExclusive` | src/myq/myq.go:437-459 | Open and Close never both send for one device. Each succeeds iff its guard state holds and the POST did not fail |
| `Session.PlacesMapKeys` | src/myq/myq.go:249-253 | the location map's keys are exactly the gateway ids of the decoded records |
| `Session.PlacesMapLastWins` | src/myq/myq.go:249-253 | a record with no later record of the same id is the one stored under that id, so a later duplicate overwrites an earlier one |
| `Session.ResolvedLocation` | src/myq/myq.go:275-278 | against the rebuilt map, a device's location name is the Name of the last record with its gateway id, or `""` when no record has it |
| `Session.InState` | src/myq/myq.go:461-471 | the selected devices all have the requested state name, and there are never more than the snapshot holds |
| `Session.InStateCount` | src/myq/myq.go:462-463 | each device with the requested state name is selected exactly as often as the snapshot holds it, and no other device is selected |
| `Session.InStateOrder` | src/myq/myq.go:462-463 | the selection keeps snapshot order: its k-th device is the snapshot's device at a position idx[k], the positions strictly increase, and every position whose device has the state name is among them |
| `Session.MyQ.constructor` | src/myq/myq.go:96-105 | the client starts with empty tokens, no devices, no locations and all flags false |
| `Session.MyQ.GetAllGateways` | src/myq/myq.go:238-256 | exactly one GET is issued, carrying the `_` cache-busting time. On failure the error is returned and `locations` is unchanged. On success `locations` is the map built from the records, and nothing else changes |
| `Session.MyQ.GetAllDevices` | src/myq/myq.go:258-282 | if the gateway fetch fails, no device request is made and both fields are unchanged. If the device fetch fails, `devices` is unchanged but `locations` is already the new map. On success `devices` has the decoded list's length and order, and each device differs from its decoded record only in `location`, which is resolved from the new map |
| `Session.MyQ.FindDoorByName` | src/myq/myq.go:390-398 | success iff some device has exactly that name, and then the result is the first such device in snapshot order. Otherwise the error is DeviceNotFound, reading `Device named '<name>' not found`, and the result is the last device, or the zero Device when there are none |
| `Session.MyQ.ShowByState` | src/myq/myq.go:461-471 | the devices shown are the snapshot's devices with that state name, in snapshot order, and the lines printed are their details lines, one per shown device |
| `Session.DetailLinesAt` | src/myq/myq.go:462-469 | the k-th line printed is the k-th shown device's machine-readable line when `machineReadable` is set, its human-readable line otherwise |
| `Session.MyQ.DoorDetails` | src/myq/myq.go:425-431 | the machine-readable line when `machineReadable` is set, the human-readable line otherwise |
| `Session.MyQ.Login` | src/myq/myq.go:330-366 | one POST with `Email` and `Password`. A failed POST or an unparsable page returns its error with the tokens untouched. Otherwise the tokens are what `findTokens` leaves. A missing security token is reported first, then a missing application id; with both present there is no error |
| `Session.MyQ.New` | src/myq/myq.go:374-388 | only the output flags, the tokens and the inventory change, and the output flags are recorded. The login request is issued first. The tokens are what login left, and its errors are reported in login's order. The requests are exactly the login POST when login fails, and otherwise the login POST, the gateway GET and, iff the gateways arrived, the device GET. A failed gateway fetch leaves the inventory untouched. A failed device fetch keeps the old devices beside the new location map. Success means login, gateways and devices all succeeded, and the inventory is then the new location map and the annotated device list |

## Left out

- HTTP plumbing (`doGet`, `doPostRaw`, `doPost`, myq.go:116-176): the client, connections, status checks, body reading and JSON decoding. Each call is an input that either failed, with its cause, or returned the decoded value.
- `url.Values.Encode` orders query parameters by name on the wire. The model lists a request's parameters in the order the code adds them.
- The cookie jar and the 60-second timeout that `login` sets up (myq.go:339-342). `cookiejar.New(nil)` cannot fail, and neither setting affects the model's values.
- The status check in `login` at myq.go:349-351 cannot fire, because `doPostRaw` already rejects every non-200 reply. A failed POST is a single input case.
- `debugf` and all diagnostics to stderr, including the request timing.
- The clock: the `_` parameter of the gateway request is the caller-supplied `nowMillis` (time.Now().UnixNano()/1000000 in the source).
- Time zones and date formatting: `Lastupdateddatetime` is held as epoch seconds, which is what `MachineString` prints. `String` takes the `time.UnixDate` rendering of that time in the local zone as its `date` argument.
- `html.Parse`: the login page arrives as a parsed node tree. Go's `findTokens` indexes `Attr[0]`, `Attr[1]` and `Attr[2]` without bounds checks and would panic on a short attribute list. `Tokens.TreeReadable` is the precondition that every such access is in range.
- Tokens.FindTokens: the Go function writes the two tokens by reference into the caller's variables. Here the slots go in as arguments and come back as results, and `Login` stores them in its fields.
- `ShowDoors` and `ShowLocations`: these only print. `ShowLocations` walks a Go map in unspecified order. `ShowByState` returns the lines it would print, rather than writing them to standard output.
- `Update` is `getAllDevices` under a public name.
- `inProgress` is declared but never used by the source.
- Integer widths: Go `int`/`int64` are unbounded integers here. A value out of range for the field is a JSON decoding failure, which is part of a failed reply.
- `src/myqt/myqt.go`, the command-line front end (flag parsing, configuration file, usage text, `os.Exit`). It is not part of this model.
