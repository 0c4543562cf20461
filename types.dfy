/** The records the MyQ client keeps, the requests it sends and the errors it returns. */
module Types {
  import opened Wrappers

  const BaseURL: string := "https://www.myliftmaster.com/"
  const Culture: string := "en-US"
  const BrandName: string := "LiftMaster"

  /** Desired-state codes sent with a command. */
  const DesiredStateClosed: int := 0
  const DesiredStateOpen: int := 1

  /** time.Time{}.Unix(): the epoch seconds of Go's zero time, 0001-01-01 UTC. */
  const ZeroTimeUnix: int := -62135596800

  /** One door as decoded from the device list. Lastupdateddatetime is held as
      epoch seconds; `location` is the client's own annotation, never decoded. */
  datatype Device = Device(
    Gatewayid: int,
    Errorstatus: string,
    Errormessage: string,
    Lastupdateddatetime: int,
    Gateway: string,
    Myqdeviceid: int,
    Imagesource: string,
    Statesince: int,
    Displaystatesince: string,
    Name: string,
    State: string,
    Error: bool,
    Connectserverdeviceid: string,
    Monitoronly: bool,
    Lowbattery: bool,
    Sensorerror: bool,
    Openerror: bool,
    Closeerror: bool,
    Disablecontrol: bool,
    Statename: string,
    Devicetypeid: int,
    Toggleattributename: string,
    Toggleattributevalue: string,
    location: string)

  /** The zero value of Device, which a search without a match over no devices returns. */
  const ZeroDevice: Device := Device(0, "", "", ZeroTimeUnix, "", 0, "", 0, "", "", "", false,
                                     "", false, false, false, false, false, false, "", 0, "", "", "")

  /** One gateway (location) record; the wire record and the stored value have the same fields. */
  datatype Place = Place(
    Gatewayid: int,
    Name: string,
    Connectserverid: string,
    Devicelist: string,
    Isdetonator: bool)

  /** An HTTP request as the client issues it: the absolute URL and the form or
      query values in the order they are added. */
  datatype Request =
    | Get(url: string, params: seq<(string, string)>)
    | Post(url: string, params: seq<(string, string)>)

  datatype Error =
    | Transport(cause: string)
    | LoginPostFailed(cause: string)
    | HtmlParse(cause: string)
    | MissingSecurityToken
    | MissingApplicationId
    | InvalidDoorState
    | DeviceNotFound(name: string)
    | AlreadyOpen
    | CannotOpen(state: string)
    | AlreadyClosed
    | CannotClose(state: string)

  /** The text of each error as the client reports it. */
  function Message(e: Error): string {
    match e
    case Transport(cause) => cause
    case LoginPostFailed(cause) => "Post() failed: " + cause + "\n"
    case HtmlParse(cause) => cause
    case MissingSecurityToken => "Can't find securityToken in login response"
    case MissingApplicationId => "Can't find applicationId in login response"
    case InvalidDoorState => "Invalid door state"
    case DeviceNotFound(name) => "Device named '" + name + "' not found"
    case AlreadyOpen => "Can't open, door is already open"
    case CannotOpen(state) => "Can't open, door is " + state
    case AlreadyClosed => "Door already closed"
    case CannotClose(state) => "Can't close, door is " + state
  }

  /** What a command did: the requests it sent, in order, and the error it returned. */
  datatype Step = Step(issued: seq<Request>, err: Option<Error>)

  /** The POST failure and the two missing-token texts of login read
      differently, and so do the fixed texts of setDoorState, Open and Close. */
  lemma MessagesTellFailuresApart(cause: string)
    ensures Message(LoginPostFailed(cause)) != Message(MissingSecurityToken)
    ensures Message(LoginPostFailed(cause)) != Message(MissingApplicationId)
    ensures Message(MissingSecurityToken) != Message(MissingApplicationId)
    ensures Message(InvalidDoorState) != Message(AlreadyOpen)
    ensures Message(InvalidDoorState) != Message(AlreadyClosed)
    ensures Message(AlreadyOpen) != Message(AlreadyClosed)
  {
    assert Message(LoginPostFailed(cause))[0] == 'P';
    assert Message(MissingSecurityToken)[0] == Message(MissingApplicationId)[0] == 'C';
  }
}
