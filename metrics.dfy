/**
  Resolution of the device name a user passes to the plugin's metrics queries,
  against the names of the devices the backends report.
*/
module Metrics {
  import opened Wrappers

  datatype DeviceNameError =
    | NoAvailableDevices
    | DeviceNameNotSpecified
    | DeviceNotInSystem(name: string)

  /** std::find: the first index holding `x`, or |names| when there is none. */
  function Find(names: seq<string>, x: string): (k: nat)
    ensures k <= |names|
    ensures k < |names| ==> names[k] == x
    ensures forall i :: 0 <= i < k ==> names[i] != x
  {
    if names == [] then 0
    else if names[0] == x then 0
    else 1 + Find(names[1..], x)
  }

  /** std::find_if with the predicate "has the same platform as `name`". */
  function FindSamePlatform(names: seq<string>, name: string, platformOf: string -> string): (k: nat)
    ensures k <= |names|
    ensures k < |names| ==> platformOf(names[k]) == platformOf(name)
    ensures forall i :: 0 <= i < k ==> platformOf(names[i]) != platformOf(name)
  {
    if names == [] then 0
    else if platformOf(names[0]) == platformOf(name) then 0
    else 1 + FindSamePlatform(names[1..], name, platformOf)
  }

  /**
    Metrics::getDeviceName. `backends` is None when the backends pointer is null,
    otherwise the list of available device names; `platformOf` stands for
    utils::getPlatformByDeviceName.
  */
  function GetDeviceName(backends: Option<seq<string>>, specified: string, platformOf: string -> string)
    : (r: Result<string, DeviceNameError>)
    ensures (r == Err(NoAvailableDevices)) <==> (backends.None? || backends.value == [])
    ensures backends.Some? && backends.value != [] && specified == [] ==>
              (r.Ok? <==> |backends.value| == 1) &&
              (r.Ok? ==> r.value == backends.value[0]) &&
              (r.Err? ==> r.error == DeviceNameNotSpecified)
    ensures backends.Some? && backends.value != [] && specified != [] ==>
              (r.Ok? <==> (specified in backends.value ||
                           exists d :: d in backends.value && platformOf(d) == platformOf(specified))) &&
              (r.Err? ==> r.error == DeviceNotInSystem(specified))
    ensures r.Ok? && specified != [] ==> r.value == specified
  {
    if backends.None? || backends.value == [] then
      Err(NoAvailableDevices)
    else
      var devNames := backends.value;
      if specified == [] then
        if |devNames| == 1 then Ok(devNames[0]) else Err(DeviceNameNotSpecified)
      else if Find(devNames, specified) == |devNames|
              && FindSamePlatform(devNames, specified, platformOf) == |devNames| then
        Err(DeviceNotInSystem(specified))
      else
        Ok(specified)
  }

  /** A successful resolution always names a listed device or a device of a listed platform. */
  lemma ResolvedNameIsAvailable(devNames: seq<string>, specified: string, platformOf: string -> string)
    requires GetDeviceName(Some(devNames), specified, platformOf).Ok?
    ensures var name := GetDeviceName(Some(devNames), specified, platformOf).value;
            name in devNames || exists d :: d in devNames && platformOf(d) == platformOf(name)
  {
  }
}
