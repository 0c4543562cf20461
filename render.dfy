/** The one-line renderings of a device and a place. */
module Render {
  import opened Types
  import opened Decimal
  import opened Text
  import opened Wrappers

  /** The fault flags in the order both renderings list them. */
  function Flags(d: Device): seq<bool> {
    [d.Monitoronly, d.Lowbattery, d.Sensorerror, d.Openerror, d.Closeerror, d.Disablecontrol]
  }

  /** The token of each flag in the machine-readable line, and what MachineString appends for it. */
  const MachineFlagNames: seq<string> := ["Monitor", "LowBat", "SensorErr", "OpenErr", "CloseErr", "Disabled"]
  const MachineFlagSuffixes: seq<string> := [",Monitor", ",LowBat", ",SensorErr", ",OpenErr", ",CloseErr", ",Disabled"]
  /** What String appends for each flag. */
  const HumanFlagTexts: seq<string> :=
    [",Monitor Only", ", LowBat", ", Sensor Error", ", Open Error", ", Close Error", ", Control disabled"]

  /** The seven fixed fields of the machine-readable line. */
  function BaseFields(d: Device): seq<string> {
    [d.Name, d.location, Itoa(d.Myqdeviceid), d.Statename,
     Itoa(d.Lastupdateddatetime), d.Errorstatus, d.Errormessage]
  }

  /** s with texts[i] appended for each set flags[i], i from k on, in order. */
  function AppendSelected(s: string, flags: seq<bool>, texts: seq<string>, k: nat): string
    requires |flags| == |texts| && k <= |flags|
    decreases |flags| - k
  {
    if k == |flags| then s
    else AppendSelected(if flags[k] then s + texts[k] else s, flags, texts, k + 1)
  }

  /** The items whose flag is set, from the k-th on, in order. */
  function SelectedFrom<T>(flags: seq<bool>, items: seq<T>, k: nat): seq<T>
    requires |flags| == |items| && k <= |flags|
    decreases |flags| - k
  {
    if k == |flags| then [] else (if flags[k] then [items[k]] else []) + SelectedFrom(flags, items, k + 1)
  }

  /** The machine-readable line: the base fields comma-joined, then ",<name>"
      for each set flag in the fixed order. */
  function MachineLine(d: Device): string {
    AppendSelected(Join(BaseFields(d), ','), Flags(d), MachineFlagSuffixes, 0)
  }

  /** The names of the set flags, in the fixed order. */
  function SetFlagNames(d: Device): seq<string> {
    SelectedFrom(Flags(d), MachineFlagNames, 0)
  }

  /** MachineString: the base fields by one Sprintf, then one append per set flag. */
  method MachineString(d: Device) returns (s: string)
    ensures s == MachineLine(d)
  {
    ghost var f, t := Flags(d), MachineFlagSuffixes;
    s := Join(BaseFields(d), ',');
    ghost var line := MachineLine(d);
    if d.Monitoronly {
      s := s + ",Monitor";
    }
    assert line == AppendSelected(s, f, t, 1);
    if d.Lowbattery {
      s := s + ",LowBat";
    }
    assert line == AppendSelected(s, f, t, 2);
    if d.Sensorerror {
      s := s + ",SensorErr";
    }
    assert line == AppendSelected(s, f, t, 3);
    if d.Openerror {
      s := s + ",OpenErr";
    }
    assert line == AppendSelected(s, f, t, 4);
    if d.Closeerror {
      s := s + ",CloseErr";
    }
    assert line == AppendSelected(s, f, t, 5);
    if d.Disablecontrol {
      s := s + ",Disabled";
    }
    assert s == AppendSelected(s, f, t, 6);
  }

  /** Appending "<sep><name>" per set flag to a joined line is joining the
      names of the set flags on. */
  lemma {:induction false} AppendSelectedJoin(fields: seq<string>, flags: seq<bool>,
                                              suffixes: seq<string>, names: seq<string>, k: nat)
    requires |fields| >= 1 && |flags| == |suffixes| == |names| && k <= |flags|
    requires forall i :: 0 <= i < |names| ==> suffixes[i] == [','] + names[i]
    ensures AppendSelected(Join(fields, ','), flags, suffixes, k) ==
            Join(fields + SelectedFrom(flags, names, k), ',')
    decreases |flags| - k
  {
    if k == |flags| {
      assert fields + [] == fields;
    } else {
      var picked := if flags[k] then [names[k]] else [];
      var next := fields + picked;
      var s := Join(fields, ',');
      if flags[k] {
        JoinSnoc(fields, names[k], ',');
        assert s + suffixes[k] == Join(next, ',');
      } else {
        assert next == fields;
      }
      AppendSelectedJoin(next, flags, suffixes, names, k + 1);
      assert next + SelectedFrom(flags, names, k + 1) == fields + SelectedFrom(flags, names, k);
    }
  }

  predicate Distinct(names: seq<string>) {
    forall i, j :: 0 <= i < j < |names| ==> names[i] != names[j]
  }

  /** With distinct names, the j-th name is selected from the k-th on exactly
      when j is at or after k and its flag is set. */
  lemma {:induction false} SelectedFromExact(flags: seq<bool>, names: seq<string>, k: nat, j: nat)
    requires |flags| == |names| && Distinct(names) && k <= |flags| && j < |flags|
    ensures names[j] in SelectedFrom(flags, names, k) <==> k <= j && flags[j]
    decreases |flags| - k
  {
    if k < |flags| {
      SelectedFromExact(flags, names, k + 1, j);
      assert j != k ==> names[j] != names[k];
    }
  }

  /** Every selected item is one of the items. */
  lemma {:induction false} SelectedFromIn<T>(flags: seq<bool>, items: seq<T>, k: nat)
    requires |flags| == |items| && k <= |flags|
    ensures forall x :: x in SelectedFrom(flags, items, k) ==> x in items
    decreases |flags| - k
  {
    if k < |flags| {
      SelectedFromIn(flags, items, k + 1);
    }
  }

  /** Which flags a list of trailing tokens reports, in the fixed order. */
  function FlagsFromTokens(tokens: seq<string>): seq<bool> {
    seq(|MachineFlagNames|, k requires 0 <= k < |MachineFlagNames| => MachineFlagNames[k] in tokens)
  }

  lemma ItoaFreeOfComma(n: int)
    ensures ',' !in Itoa(n)
  {
  }

  lemma MachineFieldsFreeOfComma(d: Device)
    requires ',' !in d.Name && ',' !in d.location && ',' !in d.Statename
    requires ',' !in d.Errorstatus && ',' !in d.Errormessage
    ensures FreeOf(BaseFields(d) + SetFlagNames(d), ',')
  {
    var b, t := BaseFields(d), SetFlagNames(d);
    ItoaFreeOfComma(d.Myqdeviceid);
    ItoaFreeOfComma(d.Lastupdateddatetime);
    assert FreeOf(b, ',');
    SelectedFromIn(Flags(d), MachineFlagNames, 0);
    assert FreeOf(MachineFlagNames, ',');
    assert forall k :: 0 <= k < |t| ==> t[k] in MachineFlagNames;
  }

  /** The trailing tokens report exactly the flags that are set. */
  lemma SetFlagNamesExact(d: Device)
    ensures FlagsFromTokens(SetFlagNames(d)) == Flags(d)
  {
    assert Distinct(MachineFlagNames);
    forall j | 0 <= j < |MachineFlagNames|
      ensures FlagsFromTokens(SetFlagNames(d))[j] == Flags(d)[j]
    {
      SelectedFromExact(Flags(d), MachineFlagNames, 0, j);
    }
  }

  /** Splitting the machine-readable line on commas gives back the seven base
      fields and then the names of exactly the set flags, in the fixed order,
      provided the free-text fields hold no comma. */
  lemma MachineLineRoundTrip(d: Device)
    requires ',' !in d.Name && ',' !in d.location && ',' !in d.Statename
    requires ',' !in d.Errorstatus && ',' !in d.Errormessage
    ensures |Split(MachineLine(d), ',')| >= 7
    ensures Split(MachineLine(d), ',')[..7] == BaseFields(d)
    ensures Split(MachineLine(d), ',')[7..] == SetFlagNames(d)
    ensures FlagsFromTokens(Split(MachineLine(d), ',')[7..]) == Flags(d)
  {
    var b, t := BaseFields(d), SetFlagNames(d);
    assert forall i :: 0 <= i < |MachineFlagNames| ==>
      MachineFlagSuffixes[i] == [','] + MachineFlagNames[i];
    AppendSelectedJoin(b, Flags(d), MachineFlagSuffixes, MachineFlagNames, 0);
    MachineFieldsFreeOfComma(d);
    SplitJoin(b + t, ',');
    assert (b + t)[..7] == b;
    assert (b + t)[7..] == t;
    SetFlagNamesExact(d);
  }

  /** The fixed head of the human-readable line (the first Sprintf of String). */
  function HumanHeader(d: Device, date: string): string {
    d.Name + " at " + d.location + " (id " + Itoa(d.Myqdeviceid) + ") is " + d.Statename +
    " since " + date
  }

  /** The error clause String appends when the device reports an error. */
  function ErrorText(d: Device): string {
    ", ERROR: status = " + d.Errorstatus + ", message = " + d.Errormessage
  }

  /** The human-readable line; `date` is the timestamp already rendered in the
      local time zone in time.UnixDate layout. */
  function HumanLine(d: Device, date: string): string {
    var head := HumanHeader(d, date);
    AppendSelected(if d.Error then head + ErrorText(d) else head, Flags(d), HumanFlagTexts, 0)
  }

  /** String: the header by Sprintf, then the error clause and each set flag appended. */
  method String(d: Device, date: string) returns (s: string)
    ensures s == HumanLine(d, date)
  {
    ghost var f, t := Flags(d), HumanFlagTexts;
    s := HumanHeader(d, date);
    if d.Error {
      s := s + ErrorText(d);
    }
    ghost var line := HumanLine(d, date);
    assert line == AppendSelected(s, f, t, 0);
    if d.Monitoronly {
      s := s + ",Monitor Only";
    }
    assert line == AppendSelected(s, f, t, 1);
    if d.Lowbattery {
      s := s + ", LowBat";
    }
    assert line == AppendSelected(s, f, t, 2);
    if d.Sensorerror {
      s := s + ", Sensor Error";
    }
    assert line == AppendSelected(s, f, t, 3);
    if d.Openerror {
      s := s + ", Open Error";
    }
    assert line == AppendSelected(s, f, t, 4);
    if d.Closeerror {
      s := s + ", Close Error";
    }
    assert line == AppendSelected(s, f, t, 5);
    if d.Disablecontrol {
      s := s + ", Control disabled";
    }
    assert s == AppendSelected(s, f, t, 6);
  }

  function Concat(texts: seq<string>): string {
    if texts == [] then "" else texts[0] + Concat(texts[1..])
  }

  /** Appending the selected texts one by one appends their concatenation. */
  lemma {:induction false} AppendSelectedConcat(s: string, flags: seq<bool>, texts: seq<string>, k: nat)
    requires |flags| == |texts| && k <= |flags|
    ensures AppendSelected(s, flags, texts, k) == s + Concat(SelectedFrom(flags, texts, k))
    decreases |flags| - k
  {
    if k == |flags| {
      assert s + "" == s;
    } else {
      var rest := SelectedFrom(flags, texts, k + 1);
      if flags[k] {
        AppendSelectedConcat(s + texts[k], flags, texts, k + 1);
        assert ([texts[k]] + rest)[1..] == rest;
        assert s + texts[k] + Concat(rest) == s + (texts[k] + Concat(rest));
      } else {
        AppendSelectedConcat(s, flags, texts, k + 1);
        assert [] + rest == rest;
      }
    }
  }

  /** With no empty text, the selected texts concatenate to nothing exactly
      when no flag from the k-th on is set. */
  lemma {:induction false} SelectedConcatEmpty(flags: seq<bool>, texts: seq<string>, k: nat)
    requires |flags| == |texts| && k <= |flags|
    requires forall i :: 0 <= i < |texts| ==> texts[i] != ""
    ensures Concat(SelectedFrom(flags, texts, k)) == "" <==> forall j :: k <= j < |flags| ==> !flags[j]
    decreases |flags| - k
  {
    if k < |flags| {
      SelectedConcatEmpty(flags, texts, k + 1);
      var rest := SelectedFrom(flags, texts, k + 1);
      if flags[k] {
        assert ([texts[k]] + rest)[1..] == rest;
        assert |Concat([texts[k]] + rest)| >= |texts[k]| > 0;
      } else {
        assert [] + rest == rest;
      }
    }
  }

  /** The human-readable line is the header followed by the error clause (when
      the device reports an error) and the texts of the set flags in the fixed
      order; it is exactly the header when there is no error and no flag. */
  lemma HumanLineShape(d: Device, date: string)
    ensures HumanLine(d, date) ==
              HumanHeader(d, date) + (if d.Error then ErrorText(d) else "") +
              Concat(SelectedFrom(Flags(d), HumanFlagTexts, 0))
    ensures HumanLine(d, date) == HumanHeader(d, date) <==>
              !d.Error && forall j :: 0 <= j < |Flags(d)| ==> !Flags(d)[j]
  {
    var h := HumanHeader(d, date);
    var e := if d.Error then ErrorText(d) else "";
    assert (if d.Error then h + ErrorText(d) else h) == h + e;
    AppendSelectedConcat(h + e, Flags(d), HumanFlagTexts, 0);
    SelectedConcatEmpty(Flags(d), HumanFlagTexts, 0);
    var c := Concat(SelectedFrom(Flags(d), HumanFlagTexts, 0));
    assert |h + e + c| == |h| + |e| + |c|;
  }

  /** place.string: the name and the gateway id in parentheses. */
  function PlaceString(p: Place): (s: string)
    ensures |s| == |p.Name| + 6 + |Itoa(p.Gatewayid)|
    ensures s[..|p.Name|] == p.Name
    ensures s[|p.Name|..|p.Name| + 5] == " (ID " && s[|s| - 1] == ')'
  {
    p.Name + " (ID " + Itoa(p.Gatewayid) + ")"
  }

  /** The gateway id is read back from between " (ID " and the closing parenthesis. */
  lemma PlaceStringId(p: Place)
    ensures Atoi(PlaceString(p)[|p.Name| + 5..|PlaceString(p)| - 1]) == Some(p.Gatewayid)
  {
    var s := PlaceString(p);
    assert s[|p.Name| + 5..|s| - 1] == Itoa(p.Gatewayid);
    ItoaRoundTrip(p.Gatewayid);
  }
}
