/** A client of the model: two locations, one closed door, a refresh, a lookup
    by name and an open command. */
module Scenario {
  import opened Wrappers
  import opened Types
  import opened Doors
  import opened Session
  import opened Decimal

  method RefreshFindOpen()
  {
    var m := new MyQ();
    m.securityToken, m.applicationId := "st", "app";
    var garage := Place(1, "Garage", "", "", false);
    var shed := Place(2, "Shed", "", "", false);
    var main := ZeroDevice.(Gatewayid := 1, Myqdeviceid := 10, Name := "Main", Statename := "Closed");
    var err, issued := m.GetAllDevices(0, Received([garage, shed]), Received([main]));
    assert err == None && |issued| == 2;
    assert m.locations == PlacesMap([garage, shed]);
    ResolvedLocation([garage, shed], 1);
    assert m.devices[0].location == "Garage";
    var d, findErr := m.FindDoorByName("Main");
    assert findErr == None && d == m.devices[0];
    assert d.location == "Garage";
    var step := Open(d, None);
    assert step.err == None;
    assert Itoa(10) == "10" && Itoa(1) == "1";
    assert step.issued[0].params[0] == ("myQDeviceId", "10");
    assert step.issued[0].params[2] == ("attributevalue", "1");
  }
}
