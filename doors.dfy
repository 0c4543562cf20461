/** The guarded door commands: the state guard of Open and Close and the
    command request built by setDoorState. */
module Doors {
  import opened Wrappers
  import opened Types
  import opened Decimal

  const TriggerURL: string := BaseURL + "Device/TriggerStateChange"

  /** GetState: the device's last-known state name, as decoded. */
  function GetState(d: Device): string {
    d.Statename
  }

  /** The error a failed POST returns; None when it succeeded. */
  function PostError(postFailure: Option<string>): Option<Error> {
    match postFailure
    case None => None
    case Some(cause) => Some(Transport(cause))
  }

  /** setDoorState: rejects a desired state other than open (1) or closed (0)
      before any request; otherwise posts the device id, the attribute name and
      the desired state, and returns whatever error the POST itself returned.
      postFailure is the failure of that POST, if any. */
  function SetDoorState(d: Device, desiredstate: int, postFailure: Option<string>): (r: Step)
    ensures desiredstate != DesiredStateOpen && desiredstate != DesiredStateClosed ==>
              r == Step([], Some(InvalidDoorState))
    ensures desiredstate == DesiredStateOpen || desiredstate == DesiredStateClosed ==>
              |r.issued| == 1 && r.issued[0].Post? && r.issued[0].url == TriggerURL &&
              |r.issued[0].params| == 3 &&
              r.issued[0].params[0].0 == "myQDeviceId" &&
              r.issued[0].params[0].1 == Itoa(d.Myqdeviceid) &&
              Atoi(r.issued[0].params[0].1) == Some(d.Myqdeviceid) &&
              r.issued[0].params[1] == ("attributename", "desireddoorstate") &&
              r.issued[0].params[2].0 == "attributevalue" &&
              r.issued[0].params[2].1 == (if desiredstate == DesiredStateOpen then "1" else "0") &&
              Atoi(r.issued[0].params[2].1) == Some(desiredstate) &&
              r.err == PostError(postFailure)
  {
    if desiredstate != DesiredStateOpen && desiredstate != DesiredStateClosed then
      Step([], Some(InvalidDoorState))
    else
      var v := [("myQDeviceId", Itoa(d.Myqdeviceid)),
                ("attributename", "desireddoorstate"),
                ("attributevalue", Itoa(desiredstate))];
      ItoaRoundTrip(d.Myqdeviceid);
      ItoaRoundTrip(desiredstate);
      Step([Post(TriggerURL, v)], PostError(postFailure))
  }

  /** Open: only a door whose state name is "Closed" is sent the open command;
      "Open" and every other state name are refused without a request. */
  function Open(d: Device, postFailure: Option<string>): (r: Step)
    ensures r.issued != [] <==> GetState(d) == "Closed"
    ensures GetState(d) == "Closed" ==> r == SetDoorState(d, DesiredStateOpen, postFailure)
    ensures GetState(d) == "Open" ==> r.err == Some(AlreadyOpen)
    ensures GetState(d) != "Open" && GetState(d) != "Closed" ==> r.err == Some(CannotOpen(d.Statename))
  {
    var state := GetState(d);
    if state == "Open" then Step([], Some(AlreadyOpen))
    else if state != "Closed" then Step([], Some(CannotOpen(state)))
    else SetDoorState(d, DesiredStateOpen, postFailure)
  }

  /** Close: only a door whose state name is "Open" is sent the close command;
      "Closed" and every other state name are refused without a request. */
  function Close(d: Device, postFailure: Option<string>): (r: Step)
    ensures r.issued != [] <==> GetState(d) == "Open"
    ensures GetState(d) == "Open" ==> r == SetDoorState(d, DesiredStateClosed, postFailure)
    ensures GetState(d) == "Closed" ==> r.err == Some(AlreadyClosed)
    ensures GetState(d) != "Open" && GetState(d) != "Closed" ==> r.err == Some(CannotClose(d.Statename))
  {
    var state := GetState(d);
    if state == "Closed" then Step([], Some(AlreadyClosed))
    else if state != "Open" then Step([], Some(CannotClose(state)))
    else SetDoorState(d, DesiredStateClosed, postFailure)
  }

  /** A command succeeds exactly when it was sent and its POST did not fail;
      Open and Close never both send a request for the same device. */
  lemma CommandsExclusive(d: Device, postFailure: Option<string>)
    ensures Open(d, postFailure).issued == [] || Close(d, postFailure).issued == []
    ensures Open(d, postFailure).err == None <==> GetState(d) == "Closed" && postFailure == None
    ensures Close(d, postFailure).err == None <==> GetState(d) == "Open" && postFailure == None
  {
  }

  /** The text of an Open refusal always reads "Can't open, door is <x>",
      where x is "already open" for an open door and the state name otherwise. */
  lemma OpenRefusalMessage(d: Device, postFailure: Option<string>)
    requires GetState(d) != "Closed"
    ensures Open(d, postFailure).err.Some?
    ensures Message(Open(d, postFailure).err.value) ==
              "Can't open, door is " + (if GetState(d) == "Open" then "already open" else GetState(d))
  {
  }

  /** The text of a Close refusal: "Door already closed" for a closed door,
      "Can't close, door is <state>" for any other state but "Open". */
  lemma CloseRefusalMessage(d: Device, postFailure: Option<string>)
    requires GetState(d) != "Open"
    ensures Close(d, postFailure).err.Some?
    ensures Message(Close(d, postFailure).err.value) ==
              if GetState(d) == "Closed" then "Door already closed" else "Can't close, door is " + GetState(d)
  {
  }
}
